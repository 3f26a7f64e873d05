/** Execution of Asahi submits: render commands go to the VDM subqueue, compute commands to the
    CDM subqueue, and a command starts only when its two barriers allow it.  Nothing is assumed
    about scheduling: any waiting command whose barriers are met may start and any running one
    may finish, so commands may also overlap and finish out of order. */
module AsahiQueue {
  import opened AsahiCmdbuf
  import opened Bytes

  /** A hardware command of some submit; that submit's commands are base..end of the queue. */
  datatype Job = Job(compute: bool, vdm: nat, cdm: nat, base: nat, end: nat)

  datatype Phase = Waiting | Running | Done

  /** What a barrier of N > 0 says about earlier submits, which the header leaves open: it waits
      for them too, as a barrier of 0 does, or only for commands of its own submit.  Everything
      below holds for both. */
  datatype Reading = Cumulative | OwnSubmit

  datatype State = State(reading: Reading, jobs: seq<Job>, phase: seq<Phase>)

  datatype Step =
    | Submit(cmds: seq<Command>)  // the commands of an accepted buffer
    | Start(i: nat)
    | Finish(i: nat)

  function Init(r: Reading): State {
    State(r, [], [])
  }

  /** The barrier a job carries for a subqueue. */
  function Barrier(j: Job, compute: bool): nat {
    if compute then j.cdm else j.vdm
  }

  /** How many of jobs lo..hi are on the subqueue. */
  function Rank(jobs: seq<Job>, compute: bool, lo: nat, hi: nat): nat
    requires lo <= hi <= |jobs|
    decreases hi - lo
  {
    if lo == hi then 0
    else Rank(jobs, compute, lo, hi - 1) + (if jobs[hi - 1].compute == compute then 1 else 0)
  }

  /** Job i waits for job k: k is on a subqueue whose barrier is not NONE, and is either from an
      earlier submit, if the barrier covers those, or among the first N commands of that subqueue
      in i's own submit. */
  predicate Covers(r: Reading, jobs: seq<Job>, i: nat, k: nat)
    requires i < |jobs| && k < |jobs|
  {
    var n := Barrier(jobs[i], jobs[k].compute);
    && n != BARRIER_NONE
    && (if k < jobs[i].base then r.Cumulative? || n == 0
        else k < jobs[i].end && Rank(jobs, jobs[k].compute, jobs[i].base, k) < n)
  }

  ghost predicate Ready(s: State, i: nat)
    requires |s.phase| == |s.jobs| && i < |s.jobs|
  {
    forall k {:trigger s.phase[k]} :: 0 <= k < |s.jobs| && Covers(s.reading, s.jobs, i, k) ==> s.phase[k] == Done
  }

  /** The hardware commands of a submit as jobs of the queue. */
  function Jobs(cmds: seq<Command>, base: nat, end: nat): (r: seq<Job>)
    ensures |r| == Count(cmds, false) + Count(cmds, true)
  {
    if cmds == [] then [] else
      var c, front := cmds[|cmds| - 1], cmds[..|cmds| - 1];
      Jobs(front, base, end) + (if c.Hardware? then [Job(c.compute, c.vdm, c.cdm, base, end)] else [])
  }

  function Enqueued(s: State, cmds: seq<Command>): seq<Job> {
    Jobs(cmds, |s.jobs|, |s.jobs| + Count(cmds, false) + Count(cmds, true))
  }

  ghost predicate Enabled(s: State, step: Step)
    requires |s.phase| == |s.jobs|
  {
    match step
    case Submit(cmds) => BarriersOk(cmds)
    case Start(i) => i < |s.jobs| && s.phase[i] == Waiting && Ready(s, i)
    case Finish(i) => i < |s.jobs| && s.phase[i] == Running
  }

  function Apply(s: State, step: Step): (r: State)
    requires |s.phase| == |s.jobs|
    ensures |r.phase| == |r.jobs|
  {
    match step
    case Submit(cmds) =>
      var added := Enqueued(s, cmds);
      State(s.reading, s.jobs + added, s.phase + seq(|added|, _ => Waiting))
    case Start(i) => if i < |s.phase| then s.(phase := s.phase[i := Running]) else s
    case Finish(i) => if i < |s.phase| then s.(phase := s.phase[i := Done]) else s
  }

  /** A run: every step is enabled when it is taken. */
  ghost predicate IsRun(s: State, steps: seq<Step>)
    requires |s.phase| == |s.jobs|
    decreases |steps|
  {
    steps == [] || (Enabled(s, steps[0]) && IsRun(Apply(s, steps[0]), steps[1..]))
  }

  function After(s: State, steps: seq<Step>): (r: State)
    requires |s.phase| == |s.jobs|
    ensures |r.phase| == |r.jobs|
    decreases |steps|
  {
    if steps == [] then s else After(Apply(s, steps[0]), steps[1..])
  }

  // ---- the invariant

  /** base..end brackets the job inside the queue, and its barriers look only backwards. */
  predicate JobOk(jobs: seq<Job>, i: nat)
    requires i < |jobs|
  {
    && jobs[i].base <= i < jobs[i].end <= |jobs|
    && (forall compute: bool :: BarrierOk(Barrier(jobs[i], compute), Rank(jobs, compute, jobs[i].base, i)))
  }

  ghost predicate Inv(s: State) {
    && |s.phase| == |s.jobs|
    && (forall i {:trigger JobOk(s.jobs, i)} :: 0 <= i < |s.jobs| ==> JobOk(s.jobs, i))
    && (forall i {:trigger Ready(s, i)} :: 0 <= i < |s.jobs| && s.phase[i] != Waiting ==> Ready(s, i))
  }

  lemma {:induction false} RankMonotone(jobs: seq<Job>, compute: bool, lo: nat, mid: nat, hi: nat)
    requires lo <= mid <= hi <= |jobs|
    ensures Rank(jobs, compute, lo, mid) <= Rank(jobs, compute, lo, hi)
    ensures mid < hi && jobs[mid].compute == compute ==> Rank(jobs, compute, lo, mid) < Rank(jobs, compute, lo, hi)
    decreases hi - mid
  {
    if mid < hi {
      RankMonotone(jobs, compute, lo, mid + 1, hi);
    }
  }

  /** Valid barriers cover only earlier jobs. */
  lemma CoversEarlier(r: Reading, jobs: seq<Job>, i: nat, k: nat)
    requires i < |jobs| && k < |jobs| && JobOk(jobs, i) && Covers(r, jobs, i, k)
    ensures k < i
  {
    var c, base := jobs[k].compute, jobs[i].base;
    assert BarrierOk(Barrier(jobs[i], c), Rank(jobs, c, base, i));
    if k >= i {
      RankMonotone(jobs, c, base, i, k);
    }
  }

  lemma {:induction false} RankPrefix(jobs: seq<Job>, more: seq<Job>, compute: bool, lo: nat, hi: nat)
    requires lo <= hi <= |jobs|
    ensures Rank(jobs + more, compute, lo, hi) == Rank(jobs, compute, lo, hi)
    decreases hi - lo
  {
    if lo < hi {
      RankPrefix(jobs, more, compute, lo, hi - 1);
    }
  }

  lemma JobOkPrefix(jobs: seq<Job>, more: seq<Job>, i: nat)
    requires i < |jobs| && JobOk(jobs, i)
    ensures JobOk(jobs + more, i)
  {
    RankPrefix(jobs, more, false, jobs[i].base, i);
    RankPrefix(jobs, more, true, jobs[i].base, i);
  }

  /** Later submits do not change what a queued command waits for. */
  lemma CoversStable(r: Reading, jobs: seq<Job>, more: seq<Job>, i: nat, k: nat)
    requires i < |jobs| && k < |jobs|
    ensures Covers(r, jobs + more, i, k) == Covers(r, jobs, i, k)
  {
    if jobs[i].base <= k {
      RankPrefix(jobs, more, jobs[k].compute, jobs[i].base, k);
    }
  }

  /** The rank of a freshly queued command is the number of earlier commands of its subqueue in
      the same submit, which is what the submit checked its barriers against. */
  lemma {:induction false} RankIsCount(prior: seq<Job>, cmds: seq<Command>, end: nat, compute: bool)
    ensures var jobs := prior + Jobs(cmds, |prior|, end);
            Rank(jobs, compute, |prior|, |jobs|) == Count(cmds, compute)
    decreases |cmds|
  {
    if cmds != [] {
      var c, front := cmds[|cmds| - 1], cmds[..|cmds| - 1];
      var jobs := prior + Jobs(front, |prior|, end);
      RankIsCount(prior, front, end, compute);
      if c.Hardware? {
        var job := Job(c.compute, c.vdm, c.cdm, |prior|, end);
        assert prior + Jobs(cmds, |prior|, end) == jobs + [job];
        RankPrefix(jobs, [job], compute, |prior|, |jobs|);
      } else {
        assert Jobs(cmds, |prior|, end) == Jobs(front, |prior|, end);
      }
    }
  }

  ghost predicate NewOk(prior: seq<Job>, added: seq<Job>, end: nat, i: nat)
    requires i < |added|
  {
    && added[i].base == |prior| && added[i].end == end
    && forall compute: bool ::
         BarrierOk(Barrier(added[i], compute), Rank(prior + added, compute, |prior|, |prior| + i))
  }

  lemma BarriersFront(cmds: seq<Command>)
    requires cmds != [] && BarriersOk(cmds)
    ensures BarriersOk(cmds[..|cmds| - 1]) && BarriersOkAt(cmds, |cmds| - 1)
  {
    var front := cmds[..|cmds| - 1];
    forall i | 0 <= i < |front|
      ensures BarriersOkAt(front, i)
    {
      assert BarriersOkAt(cmds, i);
      assert front[..i] == cmds[..i];
    }
  }

  lemma {:induction false} NewJobsOk(prior: seq<Job>, cmds: seq<Command>, end: nat, i: nat)
    requires BarriersOk(cmds) && i < |Jobs(cmds, |prior|, end)|
    ensures NewOk(prior, Jobs(cmds, |prior|, end), end, i)
    decreases |cmds|
  {
    var c, front := cmds[|cmds| - 1], cmds[..|cmds| - 1];
    BarriersFront(cmds);
    var before := Jobs(front, |prior|, end);
    var added := Jobs(cmds, |prior|, end);
    if i < |before| {
      NewJobsOk(prior, front, end, i);
      var more := added[|before|..];
      assert prior + added == (prior + before) + more;
      RankPrefix(prior + before, more, false, |prior|, |prior| + i);
      RankPrefix(prior + before, more, true, |prior|, |prior| + i);
    } else {
      assert c.Hardware? && added == before + [added[i]];
      assert prior + added == (prior + before) + [added[i]];
      RankIsCount(prior, front, end, false);
      RankIsCount(prior, front, end, true);
      RankPrefix(prior + before, [added[i]], false, |prior|, |prior| + i);
      RankPrefix(prior + before, [added[i]], true, |prior|, |prior| + i);
    }
  }

  lemma SubmitKeeps(s: State, cmds: seq<Command>)
    requires Inv(s) && BarriersOk(cmds)
    ensures Inv(Apply(s, Submit(cmds)))
  {
    hide Jobs, Rank, Count, BarriersOk;
    var n := |s.jobs|;
    var added := Enqueued(s, cmds);
    var s' := Apply(s, Submit(cmds));
    forall i | 0 <= i < |s'.jobs|
      ensures JobOk(s'.jobs, i)
    {
      if i < n {
        assert JobOk(s.jobs, i);
        JobOkPrefix(s.jobs, added, i);
      } else {
        NewJobsOk(s.jobs, cmds, |s'.jobs|, i - n);
      }
    }
    forall i | 0 <= i < |s'.jobs| && s'.phase[i] != Waiting
      ensures Ready(s', i)
    {
      OldReady(s, added, i);
    }
  }

  lemma OldReady(s: State, added: seq<Job>, i: nat)
    requires Inv(s) && i < |s.jobs| && s.phase[i] != Waiting
    requires forall k :: 0 <= k < |s.jobs + added| ==> JobOk(s.jobs + added, k)
    ensures Ready(State(s.reading, s.jobs + added, s.phase + seq(|added|, _ => Waiting)), i)
  {
    hide Rank, Covers, JobOk;
    assert Ready(s, i) && JobOk(s.jobs, i);
    forall k | 0 <= k < |s.jobs + added| && Covers(s.reading, s.jobs + added, i, k)
      ensures (s.phase + seq(|added|, _ => Waiting))[k] == Done
    {
      CoversEarlier(s.reading, s.jobs + added, i, k);
      CoversStable(s.reading, s.jobs, added, i, k);
      assert s.phase[k] == Done;
    }
  }

  lemma PhaseKeeps(s: State, i: nat, p: Phase)
    requires Inv(s) && i < |s.jobs|
    requires (p == Running && s.phase[i] == Waiting && Ready(s, i)) || (p == Done && s.phase[i] == Running)
    ensures Inv(s.(phase := s.phase[i := p]))
  {
    hide Covers, Rank, JobOk;
    var s' := s.(phase := s.phase[i := p]);
    forall k | 0 <= k < |s'.jobs| && s'.phase[k] != Waiting
      ensures Ready(s', k)
    {
      assert Ready(s, k);
      forall l | 0 <= l < |s'.jobs| && Covers(s'.reading, s'.jobs, k, l)
        ensures s'.phase[l] == Done
      {
        assert s.phase[l] == Done;
      }
    }
  }

  lemma StepKeeps(s: State, step: Step)
    requires Inv(s) && Enabled(s, step)
    ensures Inv(Apply(s, step))
  {
    hide Inv, Ready, BarriersOk;
    InvSizes(s);
    match step
    case Submit(cmds) => SubmitKeeps(s, cmds);
    case Start(i) => PhaseKeeps(s, i, Running);
    case Finish(i) => PhaseKeeps(s, i, Done);
  }

  lemma InvSizes(s: State)
    requires Inv(s)
    ensures |s.phase| == |s.jobs|
  {
  }

  lemma {:induction false} RunKeeps(s: State, steps: seq<Step>)
    requires Inv(s) && IsRun(s, steps)
    ensures Inv(After(s, steps))
    decreases |steps|
  {
    if steps != [] {
      StepKeeps(s, steps[0]);
      RunKeeps(Apply(s, steps[0]), steps[1..]);
    }
  }

  // ---- safety over runs

  lemma {:induction false} DoneWasFinished(s: State, steps: seq<Step>, k: nat)
    requires |s.phase| == |s.jobs| && IsRun(s, steps)
    requires k < |After(s, steps).phase| && After(s, steps).phase[k] == Done
    ensures Finish(k) in steps || (k < |s.phase| && s.phase[k] == Done)
    decreases |steps|
  {
    if steps != [] {
      var s' := Apply(s, steps[0]);
      DoneWasFinished(s', steps[1..], k);
      if Finish(k) in steps[1..] {
        assert Finish(k) in steps;
      } else if steps[0] == Finish(k) {
        assert Finish(k) in steps;
      }
    }
  }

  lemma {:induction false} RunSplits(s: State, steps: seq<Step>, n: nat)
    requires |s.phase| == |s.jobs| && IsRun(s, steps) && n < |steps|
    ensures IsRun(s, steps[..n]) && Enabled(After(s, steps[..n]), steps[n])
    decreases n
  {
    if n > 0 {
      RunSplits(Apply(s, steps[0]), steps[1..], n - 1);
      assert steps[..n][1..] == steps[1..][..n - 1];
    }
  }

  /** In every run from the empty queue, when a command starts, every command its barriers cover
      has finished at an earlier step of the run. */
  lemma StartsAfterCovered(r: Reading, steps: seq<Step>, n: nat, i: nat, k: nat)
    requires IsRun(Init(r), steps) && n < |steps| && steps[n] == Start(i)
    requires var s := After(Init(r), steps[..n]); i < |s.jobs| && k < |s.jobs| && Covers(r, s.jobs, i, k)
    ensures exists m :: 0 <= m < n && steps[m] == Finish(k)
  {
    hide Covers, IsRun, After;
    RunSplits(Init(r), steps, n);
    var s := After(Init(r), steps[..n]);
    KeepsReading(Init(r), steps[..n]);
    assert Ready(s, i);
    assert s.phase[k] == Done;
    DoneWasFinished(Init(r), steps[..n], k);
    var m :| 0 <= m < |steps[..n]| && steps[..n][m] == Finish(k);
    assert steps[m] == Finish(k);
  }

  lemma {:induction false} KeepsReading(s: State, steps: seq<Step>)
    requires |s.phase| == |s.jobs|
    ensures After(s, steps).reading == s.reading
    decreases |steps|
  {
    if steps != [] {
      KeepsReading(Apply(s, steps[0]), steps[1..]);
    }
  }

  // ---- what the barriers cover

  function Min(a: nat, b: nat): nat {
    if a < b then a else b
  }

  /** How many jobs lo..hi of the subqueue job i waits for. */
  function CoveredCount(r: Reading, jobs: seq<Job>, i: nat, compute: bool, lo: nat, hi: nat): nat
    requires i < |jobs| && lo <= hi <= |jobs|
    decreases hi - lo
  {
    if lo == hi then 0
    else CoveredCount(r, jobs, i, compute, lo, hi - 1)
         + (if jobs[hi - 1].compute == compute && Covers(r, jobs, i, hi - 1) then 1 else 0)
  }

  lemma {:induction false} CoveredCountIs(r: Reading, jobs: seq<Job>, i: nat, compute: bool, hi: nat)
    requires i < |jobs| && jobs[i].base <= hi <= jobs[i].end <= |jobs| && Barrier(jobs[i], compute) != BARRIER_NONE
    ensures CoveredCount(r, jobs, i, compute, jobs[i].base, hi)
         == Min(Barrier(jobs[i], compute), Rank(jobs, compute, jobs[i].base, hi))
    decreases hi
  {
    if jobs[i].base < hi {
      CoveredCountIs(r, jobs, i, compute, hi - 1);
    }
  }

  /** The documented meaning of a barrier on a subqueue: NONE waits for nothing; 0 waits for all
      work of earlier submits there and for nothing of its own; N waits for exactly N commands of
      its submit (all of them if there are fewer), the first ones, and for earlier submits as the
      reading says. */
  lemma BarrierMeans(r: Reading, jobs: seq<Job>, i: nat, compute: bool)
    requires i < |jobs| && jobs[i].base <= i < jobs[i].end <= |jobs|
    ensures var (n, base, end) := (Barrier(jobs[i], compute), jobs[i].base, jobs[i].end);
            if n == BARRIER_NONE then
              forall k: nat :: k < |jobs| && jobs[k].compute == compute ==> !Covers(r, jobs, i, k)
            else
              && (forall k: nat :: k < base && jobs[k].compute == compute ==>
                    (Covers(r, jobs, i, k) <==> r.Cumulative? || n == 0))
              && (forall k: nat :: end <= k < |jobs| && jobs[k].compute == compute ==> !Covers(r, jobs, i, k))
              && CoveredCount(r, jobs, i, compute, base, end) == Min(n, Rank(jobs, compute, base, end))
              && (forall k: nat, l: nat ::
                    (base <= k < l < end && jobs[k].compute == jobs[l].compute == compute && Covers(r, jobs, i, l))
                    ==> Covers(r, jobs, i, k))
  {
    var base, end := jobs[i].base, jobs[i].end;
    if Barrier(jobs[i], compute) != BARRIER_NONE {
      CoveredCountIs(r, jobs, i, compute, end);
      forall k: nat, l: nat | base <= k < l < end && jobs[k].compute == jobs[l].compute == compute && Covers(r, jobs, i, l)
        ensures Covers(r, jobs, i, k)
      {
        RankMonotone(jobs, compute, base, k, l);
      }
    }
  }

  // ---- progress and termination

  predicate Finished(s: State) {
    forall i :: 0 <= i < |s.phase| ==> s.phase[i] == Done
  }

  /** Job i waits for a job of S. */
  ghost predicate WaitsIn(r: Reading, jobs: seq<Job>, S: set<nat>, i: nat)
    requires i < |jobs|
  {
    exists k :: k in S && k < |jobs| && Covers(r, jobs, i, k)
  }

  /** A set of waiting commands each of which waits for one of the set. */
  ghost predicate Stuck(s: State, S: set<nat>)
    requires |s.phase| == |s.jobs|
  {
    S != {} && forall i :: i in S ==> i < |s.jobs| && s.phase[i] == Waiting && WaitsIn(s.reading, s.jobs, S, i)
  }

  /** No command of a stuck set is ready. */
  lemma StuckNotReady(s: State, S: set<nat>, i: nat)
    requires |s.phase| == |s.jobs| && Stuck(s, S) && i in S
    ensures i < |s.jobs| && s.phase[i] == Waiting && !Ready(s, i)
  {
    hide Covers, WaitsIn;
    assert i < |s.jobs| && WaitsIn(s.reading, s.jobs, S, i);
    var k := WaitsFor(s.reading, s.jobs, S, i);
    assert s.phase[k] == Waiting;
  }

  lemma WaitsFor(r: Reading, jobs: seq<Job>, S: set<nat>, i: nat) returns (k: nat)
    requires i < |jobs| && WaitsIn(r, jobs, S, i)
    ensures k in S && k < |jobs| && Covers(r, jobs, i, k)
  {
    hide Covers;
    k :| k in S && k < |jobs| && Covers(r, jobs, i, k);
  }

  lemma WaitsInStable(r: Reading, jobs: seq<Job>, more: seq<Job>, S: set<nat>, i: nat)
    requires i < |jobs| && WaitsIn(r, jobs, S, i)
    ensures WaitsIn(r, jobs + more, S, i)
  {
    hide Covers;
    var k := WaitsFor(r, jobs, S, i);
    CoversStable(r, jobs, more, i, k);
  }

  lemma StuckSubmit(s: State, S: set<nat>, cmds: seq<Command>)
    requires |s.phase| == |s.jobs| && Stuck(s, S)
    ensures Stuck(Apply(s, Submit(cmds)), S)
  {
    hide WaitsIn, Jobs, Count;
    var s' := Apply(s, Submit(cmds));
    forall i | i in S
      ensures i < |s'.jobs| && s'.phase[i] == Waiting && WaitsIn(s'.reading, s'.jobs, S, i)
    {
      WaitsInStable(s.reading, s.jobs, Enqueued(s, cmds), S, i);
    }
  }

  lemma StuckStep(s: State, S: set<nat>, step: Step)
    requires |s.phase| == |s.jobs| && Stuck(s, S) && Enabled(s, step)
    ensures Stuck(Apply(s, step), S)
  {
    hide WaitsIn, Ready, BarriersOk;
    if step.Submit? {
      StuckSubmit(s, S, step.cmds);
    } else if step.i in S {
      StuckNotReady(s, S, step.i);
    }
  }

  /** Commands that wait for each other wait for ever, under every schedule and whatever is
      submitted later. */
  lemma {:induction false} StuckForever(s: State, S: set<nat>, steps: seq<Step>)
    requires |s.phase| == |s.jobs| && Stuck(s, S) && IsRun(s, steps)
    ensures Stuck(After(s, steps), S) && !Finished(After(s, steps))
    decreases |steps|
  {
    hide WaitsIn, Ready, BarriersOk;
    if steps == [] {
      var i :| i in S;
      assert s.phase[i] == Waiting;
    } else {
      StuckStep(s, S, steps[0]);
      StuckForever(Apply(s, steps[0]), S, steps[1..]);
    }
  }

  /** A command that waits and cannot start waits for an unfinished one. */
  lemma NotReady(s: State, i: nat) returns (k: nat)
    requires |s.phase| == |s.jobs| && i < |s.jobs| && !Ready(s, i)
    ensures k < |s.jobs| && Covers(s.reading, s.jobs, i, k) && s.phase[k] != Done
  {
    hide Covers;
    k :| 0 <= k < |s.jobs| && Covers(s.reading, s.jobs, i, k) && s.phase[k] != Done;
  }

  /** If nothing runs and nothing is ready, the waiting commands are a stuck set. */
  lemma IdleIsStuck(s: State, W: set<nat>)
    requires |s.phase| == |s.jobs| && W == set i | 0 <= i < |s.phase| && s.phase[i] == Waiting
    requires W != {} && forall i :: 0 <= i < |s.phase| ==> s.phase[i] != Running
    requires forall i :: 0 <= i < |s.phase| && s.phase[i] == Waiting ==> !Ready(s, i)
    ensures Stuck(s, W)
  {
    hide Covers, Ready;
    forall i | i in W
      ensures WaitsIn(s.reading, s.jobs, W, i)
    {
      var k := NotReady(s, i);
      assert k in W;
    }
  }

  /** Without a stuck set an unfinished queue has an enabled step. */
  lemma Advance(s: State) returns (step: Step)
    requires |s.phase| == |s.jobs| && !Finished(s) && forall S :: !Stuck(s, S)
    ensures Enabled(s, step) && !step.Submit?
  {
    hide Stuck, Ready;
    if i :| 0 <= i < |s.phase| && s.phase[i] == Running {
      step := Finish(i);
    } else if i :| 0 <= i < |s.phase| && s.phase[i] == Waiting && Ready(s, i) {
      step := Start(i);
    } else {
      var W := set i | 0 <= i < |s.phase| && s.phase[i] == Waiting;
      var j :| 0 <= j < |s.phase| && s.phase[j] != Done;
      assert j in W;
      IdleIsStuck(s, W);
    }
  }

  /** Starting or finishing commands makes no new stuck set. */
  lemma UnstuckBefore(s: State, step: Step, S: set<nat>)
    requires |s.phase| == |s.jobs| && Enabled(s, step) && !step.Submit? && Stuck(Apply(s, step), S)
    ensures Stuck(s, S)
  {
    hide WaitsIn, Ready;
    forall i | i in S
      ensures i < |s.jobs| && s.phase[i] == Waiting
    {
      assert Apply(s, step).phase[i] == Waiting;
    }
  }

  lemma StepKeepsUnstuck(s: State, step: Step)
    requires |s.phase| == |s.jobs| && Enabled(s, step) && !step.Submit? && forall S :: !Stuck(s, S)
    ensures forall S :: !Stuck(Apply(s, step), S)
  {
    hide Stuck, Enabled, Apply;
    forall S
      ensures !Stuck(Apply(s, step), S)
    {
      if Stuck(Apply(s, step), S) {
        UnstuckBefore(s, step, S);
      }
    }
  }

  lemma {:induction false} Completes(s: State) returns (steps: seq<Step>)
    requires |s.phase| == |s.jobs| && forall S :: !Stuck(s, S)
    ensures IsRun(s, steps) && NoSubmit(steps) && Finished(After(s, steps))
    decreases Work(s.phase)
  {
    hide Stuck, Ready, Work;
    if Finished(s) {
      steps := [];
    } else {
      var step := Advance(s);
      StepKeepsUnstuck(s, step);
      WorkDrops(s.phase, step.i, if step.Start? then Running else Done);
      var rest := Completes(Apply(s, step));
      steps := [step] + rest;
      assert steps[1..] == rest;
    }
  }

  /** For any barriers at all, valid or not: a stuck set of commands keeps every run, with any
      later submits, from finishing, and without one some schedule finishes the queue as it
      stands. */
  lemma CompletionExact(s: State)
    requires |s.phase| == |s.jobs|
    ensures (exists steps :: IsRun(s, steps) && Finished(After(s, steps))) <==> !exists S :: Stuck(s, S)
    ensures (exists steps :: IsRun(s, steps) && NoSubmit(steps) && Finished(After(s, steps)))
            <==> !exists S :: Stuck(s, S)
  {
    hide Stuck, Finished;
    if !exists S :: Stuck(s, S) {
      var steps := Completes(s);
    } else {
      var S :| Stuck(s, S);
      forall steps | IsRun(s, steps)
        ensures !Finished(After(s, steps))
      {
        StuckForever(s, S, steps);
      }
    }
  }

  lemma {:induction false} LeastOf(S: set<nat>) returns (m: nat)
    requires S != {}
    ensures m in S && forall i :: i in S ==> m <= i
    decreases |S|
  {
    m :| m in S;
    var rest := S - {m};
    if rest != {} {
      var m' := LeastOf(rest);
      forall i | i in S
        ensures m <= i || m' <= i
      {
        assert i == m || i in rest;
      }
      m := if m < m' then m else m';
    } else {
      assert forall i :: i in S ==> i == m || i in rest;
    }
  }

  /** The rule on barriers excludes stuck sets in every state accepted submits lead to. */
  lemma RuleExcludesStuck(s: State, S: set<nat>)
    requires Inv(s)
    ensures !Stuck(s, S)
  {
    hide Covers, JobOk, Ready;
    if Stuck(s, S) {
      var i := LeastOf(S);
      assert WaitsIn(s.reading, s.jobs, S, i);
      EarlierInSet(s.reading, s.jobs, S, i);
    }
  }

  lemma EarlierInSet(r: Reading, jobs: seq<Job>, S: set<nat>, i: nat)
    requires i < |jobs| && WaitsIn(r, jobs, S, i) && JobOk(jobs, i)
    ensures exists k :: k in S && k < i
  {
    hide Covers, JobOk;
    var k :| k in S && k < |jobs| && Covers(r, jobs, i, k);
    CoversEarlier(r, jobs, i, k);
  }

  /** The oldest unfinished command can always move: it finishes if it runs and starts if it
      waits, so even a device that takes each subqueue strictly in order never blocks. */
  lemma OldestMoves(s: State, i: nat)
    requires Inv(s) && i < |s.jobs| && s.phase[i] != Done
    requires forall k :: 0 <= k < i ==> s.phase[k] == Done
    ensures Enabled(s, if s.phase[i] == Running then Finish(i) else Start(i))
  {
    hide Covers, JobOk;
    assert JobOk(s.jobs, i);
    forall k | 0 <= k < |s.jobs| && Covers(s.reading, s.jobs, i, k)
      ensures s.phase[k] == Done
    {
      CoversEarlier(s.reading, s.jobs, i, k);
    }
  }

  /** No deadlock: in every state that accepted submits can lead to, an unfinished queue has an
      oldest unfinished command, and that command has an enabled step. */
  lemma Progress(s: State) returns (i: nat)
    requires Inv(s) && !Finished(s)
    ensures i < |s.phase| && s.phase[i] != Done && forall k :: 0 <= k < i ==> s.phase[k] == Done
    ensures Enabled(s, if s.phase[i] == Running then Finish(i) else Start(i))
  {
    hide Covers, JobOk, Ready;
    var unfinished := set k | 0 <= k < |s.phase| && s.phase[k] != Done;
    var k :| 0 <= k < |s.phase| && s.phase[k] != Done;
    assert k in unfinished;
    i := LeastOf(unfinished);
    forall l | 0 <= l < i
      ensures s.phase[l] == Done
    {
      assert l !in unfinished;
    }
    OldestMoves(s, i);
  }

  /** Two steps are left for a waiting command, one for a running one. */
  function Work(phase: seq<Phase>): nat {
    if phase == [] then 0
    else Work(phase[..|phase| - 1]) + (match phase[|phase| - 1] case Waiting => 2 case Running => 1 case Done => 0)
  }

  lemma {:induction false} WorkDrops(phase: seq<Phase>, i: nat, p: Phase)
    requires i < |phase|
    requires (phase[i] == Waiting && p == Running) || (phase[i] == Running && p == Done)
    ensures Work(phase[i := p]) == Work(phase) - 1
    decreases |phase|
  {
    var n := |phase| - 1;
    var after := phase[i := p];
    if i < n {
      WorkDrops(phase[..n], i, p);
      assert after[..n] == phase[..n][i := p];
    } else {
      assert after[..n] == phase[..n];
    }
  }

  lemma {:induction false} NoWorkFinished(s: State)
    ensures Work(s.phase) == 0 <==> Finished(s)
    decreases |s.phase|
  {
    if s.phase != [] {
      var n := |s.phase| - 1;
      NoWorkFinished(s.(phase := s.phase[..n]));
      assert Finished(s) ==> Finished(s.(phase := s.phase[..n]));
      if Finished(s.(phase := s.phase[..n])) && s.phase[n] == Done {
        forall i | 0 <= i < |s.phase|
          ensures s.phase[i] == Done
        {
          assert i < n ==> s.phase[..n][i] == Done;
        }
      }
    }
  }

  predicate NoSubmit(steps: seq<Step>) {
    forall k :: 0 <= k < |steps| ==> !steps[k].Submit?
  }

  /** Between submits every schedule takes exactly one step per unit of work: none runs longer
      than the work at hand, it has finished every command exactly when it has taken that many
      steps, and one that cannot go on has finished. */
  lemma {:induction false} RunsTerminate(s: State, steps: seq<Step>)
    requires Inv(s) && IsRun(s, steps) && NoSubmit(steps)
    ensures Work(After(s, steps).phase) + |steps| == Work(s.phase)
    ensures |steps| == Work(s.phase) <==> Finished(After(s, steps))
    ensures (forall step :: Enabled(After(s, steps), step) ==> step.Submit?) ==> Finished(After(s, steps))
    decreases |steps|
  {
    hide Ready, BarriersOk, Work;
    if steps == [] {
      NoWorkFinished(s);
      if !Finished(s) {
        var i := Progress(s);
      }
    } else {
      var s' := Apply(s, steps[0]);
      StepKeeps(s, steps[0]);
      WorkDrops(s.phase, steps[0].i, if steps[0].Start? then Running else Done);
      RunsTerminate(s', steps[1..]);
    }
  }

  /** Any buffers that a driver accepts may be queued one after another: their commands are
      steps a run may take. */
  lemma AcceptedMaySubmit(d: Driver, bs: seq<Byte>, s: State)
    requires |s.phase| == |s.jobs| && AsahiCmdbuf.Submit(d, bs).Some?
    ensures Enabled(s, Submit(AsahiCmdbuf.Submit(d, bs).value))
  {
    hide Parse, BarriersOk, NormalizeAll;
    NormalizeKeepsBarriers(d, Parse(bs).value);
  }

  // ---- why the barrier rule is needed

  /** Without the rule: a command covers itself exactly when its own-subqueue barrier counts past
      the commands before it. */
  lemma OverlongCoversItself(r: Reading, jobs: seq<Job>, i: nat)
    requires i < |jobs| && jobs[i].base <= i < jobs[i].end
    ensures Covers(r, jobs, i, i) <==>
              !BarrierOk(Barrier(jobs[i], jobs[i].compute), Rank(jobs, jobs[i].compute, jobs[i].base, i))
  {
  }

  /** Such a command is a stuck set by itself: no schedule ever runs it, whatever
      is submitted later. */
  lemma OverlongNeverRuns(s: State, i: nat, steps: seq<Step>)
    requires |s.phase| == |s.jobs| && i < |s.jobs| && s.phase[i] == Waiting
    requires s.jobs[i].base <= i < s.jobs[i].end
    requires !BarrierOk(Barrier(s.jobs[i], s.jobs[i].compute), Rank(s.jobs, s.jobs[i].compute, s.jobs[i].base, i))
    requires IsRun(s, steps)
    ensures i < |After(s, steps).phase| && After(s, steps).phase[i] == Waiting
  {
    hide Covers, IsRun, After;
    OverlongCoversItself(s.reading, s.jobs, i);
    assert i in {i} && Covers(s.reading, s.jobs, i, i);
    assert Stuck(s, {i});
    StuckForever(s, {i}, steps);
    assert i in {i};
  }

  // ---- the queue as the driver holds it

  /** One queue of the device; the methods are the three kinds of step. */
  class Queue {
    const reading: Reading
    var jobs: seq<Job>
    var phase: seq<Phase>

    ghost function Abs(): State
      reads this
    {
      State(reading, jobs, phase)
    }

    ghost predicate Valid()
      reads this
    {
      Inv(Abs())
    }

    constructor (r: Reading)
      ensures Valid() && Abs() == Init(r)
    {
      reading, jobs, phase := r, [], [];
    }

    /** DRM_IOCTL_ASAHI_SUBMIT with the commands of the parsed buffer. */
    method SubmitCommands(cmds: seq<Command>) returns (ok: bool)
      requires Valid()
      modifies this
      ensures Valid() && ok == BarriersOk(cmds)
      ensures Abs() == if ok then Apply(old(Abs()), Submit(cmds)) else old(Abs())
    {
      ok := BarriersOk(cmds);
      if ok {
        SubmitKeeps(Abs(), cmds);
        hide Inv, Jobs, Count, BarriersOk;
        var added := Jobs(cmds, |jobs|, |jobs| + Count(cmds, false) + Count(cmds, true));
        jobs := jobs + added;
        phase := phase + seq(|added|, _ => Waiting);
      }
    }

    /** Start command i if it waits and everything it waits for is done. */
    method StartJob(i: nat) returns (ok: bool)
      requires Valid()
      modifies this
      ensures Valid() && |old(phase)| == |old(jobs)| && ok == old(Enabled(Abs(), Start(i)))
      ensures Abs() == if ok then Apply(old(Abs()), Start(i)) else old(Abs())
    {
      ok := false;
      if i < |jobs| && phase[i] == Waiting {
        var k := 0;
        while k < |jobs| && (!Covers(reading, jobs, i, k) || phase[k] == Done)
          invariant k <= |jobs|
          invariant forall l :: 0 <= l < k && Covers(reading, jobs, i, l) ==> phase[l] == Done
        {
          k := k + 1;
        }
        if k == |jobs| {
          assert Ready(Abs(), i);
          PhaseKeeps(Abs(), i, Running);
          phase := phase[i := Running];
          ok := true;
        } else {
          assert phase[k] != Done;
        }
      }
    }

    method FinishJob(i: nat) returns (ok: bool)
      requires Valid()
      modifies this
      ensures Valid() && |old(phase)| == |old(jobs)| && ok == old(Enabled(Abs(), Finish(i)))
      ensures Abs() == if ok then Apply(old(Abs()), Finish(i)) else old(Abs())
    {
      ok := i < |jobs| && phase[i] == Running;
      if ok {
        PhaseKeeps(Abs(), i, Done);
        phase := phase[i := Done];
      }
    }
  }
}
