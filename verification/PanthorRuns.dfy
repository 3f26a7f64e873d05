/** The Panthor device in terms of its calls and events alone: the order of queued bind operations,
    and which call is accepted after which calls and events. */
module PanthorRuns {
  import opened Panthor

  // ---- queued operations never stop fitting

  ghost predicate QueuesFit(s: State) {
    forall id, k :: id in s.vms && 0 <= k < |s.vms[id].queue| && s.vms[id].queue[k].Map? ==>
      MapFits(s, id, s.vms[id].queue[k])
  }

  /** What a step does to the queue of a VM that it does not destroy. */
  lemma QueueAfter(s: State, id: nat, op: Op)
    requires id in s.vms && op != VmDestroy(id)
    ensures var (s', ok) := Step(s, op);
            && id in s'.vms
            && s'.vms[id].queue == (if op.BindAsync? && op.vm == id && ok then s.vms[id].queue + [op.bind]
                                    else if op.RunQueue? && op.vm == id && ok then s.vms[id].queue[1..]
                                    else s.vms[id].queue)
    ensures op.RunQueue? && op.vm == id ==> (Step(s, op).1 <==> s.vms[id].queue != [])
  {
    hide Perform, MapFits;
  }

  lemma FitsStays(s: State, id: nat, op: Op, bind: BindOp)
    requires id in s.vms && op != VmDestroy(id) && bind.Map? && MapFits(s, id, bind)
    ensures id in Step(s, op).0.vms && MapFits(Step(s, op).0, id, bind)
  {
    UsableStep(s, id, op);
    BoStays(s, [op], bind.bo);
    assert Run(s, [op]) == Run(Step(s, op).0, [op][1..]) == Step(s, op).0;
    hide Step, Run;
  }

  lemma AsyncFits(s: State, id: nat, bind: BindOp)
    requires Step(s, BindAsync(id, bind)).1 && bind.Map?
    ensures id in s.vms && MapFits(s, id, bind)
  {
  }

  lemma StepKeepsFit(s: State, op: Op)
    requires QueuesFit(s)
    ensures QueuesFit(Step(s, op).0)
  {
    hide Step, MapFits;
    var s' := Step(s, op).0;
    forall id, k | id in s'.vms && 0 <= k < |s'.vms[id].queue| && s'.vms[id].queue[k].Map?
      ensures MapFits(s', id, s'.vms[id].queue[k])
    {
      var bind := s'.vms[id].queue[k];
      if id in s.vms {
        StepSerials(s, op, id);
        QueueAfter(s, id, op);
        if op.BindAsync? && op.vm == id && Step(s, op).1 && k == |s.vms[id].queue| {
          AsyncFits(s, id, bind);
        } else {
          assert bind in s.vms[id].queue;
        }
        FitsStays(s, id, op, bind);
      } else {
        VmAppears(s, op, id);
      }
    }
  }

  lemma {:induction false} RunKeepsFit(s: State, ops: seq<Op>)
    requires QueuesFit(s)
    ensures QueuesFit(Run(s, ops))
    decreases |ops|
  {
    hide QueuesFit, Step;
    if ops != [] {
      StepKeepsFit(s, ops[0]);
      RunKeepsFit(Step(s, ops[0]).0, ops[1..]);
    }
  }

  lemma InitFits(rule: FaultRule)
    ensures QueuesFit(Init(rule))
  {
  }

  /** A new VM is empty and usable and has a serial of its own. */
  lemma VmAppears(s: State, op: Op, id: nat)
    requires id !in s.vms && id in Step(s, op).0.vms
    ensures op.VmCreate? && op.id == id && Step(s, op).1
    ensures Step(s, op).0.vms[id] == Vm(s.next, true, op.range, map[], [])
  {
    hide Perform, MapFits;
  }

  // ---- queued operations run in the order they were issued

  /** The queued bind operations that were issued to VM id in a run and accepted, in the order of
      the calls. */
  function Issued(s: State, id: nat, ops: seq<Op>): seq<BindOp>
    decreases |ops|
  {
    if ops == [] then [] else
      (if ops[0].BindAsync? && ops[0].vm == id && Step(s, ops[0]).1 then [ops[0].bind] else [])
      + Issued(Step(s, ops[0]).0, id, ops[1..])
  }

  /** How many queued operations of VM id the device took up in a run. */
  function Taken(s: State, id: nat, ops: seq<Op>): nat
    decreases |ops|
  {
    if ops == [] then 0 else
      (if ops[0].RunQueue? && ops[0].vm == id && Step(s, ops[0]).1 then 1 else 0)
      + Taken(Step(s, ops[0]).0, id, ops[1..])
  }

  /** First in, first out: over every run that keeps the VM, what is pending is what was pending
      before and then what was issued, without the operations taken up, which are the oldest. */
  lemma {:induction false} QueueHistory(s: State, id: nat, ops: seq<Op>)
    requires id in s.vms && VmDestroy(id) !in ops
    ensures id in Run(s, ops).vms
    ensures var all := s.vms[id].queue + Issued(s, id, ops);
            Taken(s, id, ops) <= |all| && Run(s, ops).vms[id].queue == all[Taken(s, id, ops)..]
    decreases |ops|
  {
    hide Step;
    if ops != [] {
      var s', rest := Step(s, ops[0]).0, ops[1..];
      assert ops[0] in ops;
      QueueAfter(s, id, ops[0]);
      var all, all' := s.vms[id].queue + Issued(s, id, ops), s'.vms[id].queue + Issued(s', id, rest);
      QueueHistory(s', id, rest);
      if ops[0].RunQueue? && ops[0].vm == id && Step(s, ops[0]).1 {
        assert all' == all[1..];
      } else {
        assert all' == all;
      }
    }
  }

  /** The operations a run carries out on VM id: accepted synchronous ones, and, the k-th time the
      device takes up a queued operation, the k-th of `all`, unless that fails or is a map for a VM
      that is unusable by then. */
  function Performed(s: State, id: nat, all: seq<BindOp>, k: nat, ops: seq<Op>): seq<BindOp>
    decreases |ops|
  {
    if ops == [] then [] else
      var (s', ok) := Step(s, ops[0]);
      if ops[0].Bind? && ops[0].vm == id && ok then
        [ops[0].bind] + Performed(s', id, all, k, ops[1..])
      else if ops[0].RunQueue? && ops[0].vm == id && ok && id in s.vms && k < |all| then
        (if !ops[0].fails && (all[k].Map? ==> s.vms[id].usable) then [all[k]] else [])
        + Performed(s', id, all, k + 1, ops[1..])
      else Performed(s', id, all, k, ops[1..])
  }

  lemma HeadRuns(s: State, id: nat)
    requires QueuesFit(s) && id in s.vms && s.vms[id].queue != []
    ensures BindOk(s, id, s.vms[id].queue[0]) <==> (s.vms[id].queue[0].Map? ==> s.vms[id].usable)
  {
    hide MapFits;
    if s.vms[id].queue[0].Map? {
      assert MapFits(s, id, s.vms[id].queue[0]);
    }
  }

  lemma {:induction false} ExecutedInOrder(s: State, id: nat, past: seq<BindOp>, ops: seq<Op>)
    requires QueuesFit(s) && id in s.vms && VmDestroy(id) !in ops
    ensures Executed(s, id, ops) == Performed(s, id, past + (s.vms[id].queue + Issued(s, id, ops)), |past|, ops)
    decreases |ops|
  {
    hide Step, BindOk, QueuesFit;
    if ops != [] {
      var op, s', rest := ops[0], Step(s, ops[0]).0, ops[1..];
      assert op in ops;
      QueueAfter(s, id, op);
      var q, q' := s.vms[id].queue, s'.vms[id].queue;
      var all := past + (q + Issued(s, id, ops));
      StepKeepsFit(s, op);
      if op.RunQueue? && op.vm == id && Step(s, op).1 {
        HeadRuns(s, id);
        ExecutedInOrder(s', id, past + [q[0]], rest);
        assert (past + [q[0]]) + (q' + Issued(s', id, rest)) == all;
        assert all[|past|] == q[0];
      } else {
        ExecutedInOrder(s', id, past, rest);
        assert past + (q' + Issued(s', id, rest)) == all;
      }
    }
  }

  /** What a VM maps, in the order the operations were issued: over every run that keeps it, each
      address shows what the last operation carried out that covers it left there. */
  lemma SpaceInOrder(s: State, id: nat, ops: seq<Op>, a: nat)
    requires QueuesFit(s) && id in s.vms && VmDestroy(id) !in ops
    ensures id in Run(s, ops).vms
    ensures ShownAt(Run(s, ops).vms[id].space, a)
         == LastBind(Performed(s, id, s.vms[id].queue + Issued(s, id, ops), 0, ops), a, ShownAt(s.vms[id].space, a))
  {
    hide Run, Executed, Performed, Issued, LastBind, ShownAt, QueuesFit;
    SpaceHistory(s, id, ops, a);
    ExecutedInOrder(s, id, [], ops);
    assert [] + (s.vms[id].queue + Issued(s, id, ops)) == s.vms[id].queue + Issued(s, id, ops);
  }

  // ---- what the calls of a run made

  /** The device after the first n calls and events. */
  function At(rule: FaultRule, ops: seq<Op>, n: nat): State
    requires n <= |ops|
  {
    Run(Init(rule), ops[..n])
  }

  predicate Accepted(rule: FaultRule, ops: seq<Op>, n: nat)
    requires n < |ops|
  {
    Step(At(rule, ops, n), ops[n]).1
  }

  /** Call v made the VM that has the id now. */
  predicate VmMade(rule: FaultRule, ops: seq<Op>, v: nat, id: nat) {
    && v < |ops| && ops[v].VmCreate? && ops[v].id == id && Accepted(rule, ops, v)
    && VmDestroy(id) !in ops[v + 1..]
  }

  predicate BoMade(rule: FaultRule, ops: seq<Op>, b: nat, h: nat) {
    b < |ops| && ops[b].BoCreate? && ops[b].handle == h && Accepted(rule, ops, b)
  }

  predicate GroupMade(rule: FaultRule, ops: seq<Op>, n: nat, g: nat) {
    && n < |ops| && ops[n].GroupCreate? && ops[n].group == g && Accepted(rule, ops, n)
    && GroupDestroy(g) !in ops[n + 1..]
  }

  ghost predicate VmLive(rule: FaultRule, ops: seq<Op>, id: nat) {
    exists v: nat :: VmMade(rule, ops, v, id)
  }

  ghost predicate GroupLive(rule: FaultRule, ops: seq<Op>, g: nat) {
    exists n: nat :: GroupMade(rule, ops, n, g)
  }

  /** Step n is a cause for VM id to become unusable: a queued operation fails, or anything else
      breaks it. */
  predicate Cause(s: State, id: nat, ops: seq<Op>, n: nat)
    requires n < |ops|
  {
    ops[n] == VmBreak(id) || (ops[n] == RunQueue(id, true) && Step(Run(s, ops[..n]), ops[n]).1)
  }

  ghost predicate Caused(s: State, id: nat, ops: seq<Op>) {
    exists n :: 0 <= n < |ops| && Cause(s, id, ops, n)
  }

  /** No cause since call v. */
  ghost predicate Unbroken(rule: FaultRule, ops: seq<Op>, v: nat, id: nat) {
    forall n :: v < n < |ops| ==> !Cause(Init(rule), id, ops, n)
  }

  lemma {:induction false} RunSplit(s: State, ops: seq<Op>, n: nat)
    requires n <= |ops|
    ensures Run(s, ops) == Run(Run(s, ops[..n]), ops[n..])
    decreases |ops|
  {
    hide Step;
    if n > 0 {
      RunSplit(Step(s, ops[0]).0, ops[1..], n - 1);
      assert ops[..n][1..] == ops[1..][..n - 1] && ops[1..][n - 1..] == ops[n..];
    } else {
      assert ops[0..] == ops;
    }
  }

  /** The run goes on from call n. */
  lemma RunFrom(rule: FaultRule, ops: seq<Op>, n: nat)
    requires n < |ops|
    ensures Run(Init(rule), ops) == Run(Step(At(rule, ops, n), ops[n]).0, ops[n + 1..])
    ensures At(rule, ops, n + 1) == Step(At(rule, ops, n), ops[n]).0
  {
    hide Step, Init;
    RunSplit(Init(rule), ops, n);
    assert ops[n..][1..] == ops[n + 1..];
    RunSplit(Init(rule), ops[..n + 1], n);
    assert ops[..n + 1][..n] == ops[..n] && ops[..n + 1][n..] == [ops[n]];
    OneStep(At(rule, ops, n), ops[n]);
  }

  lemma OneStep(s: State, op: Op)
    ensures Run(s, [op]) == Step(s, op).0
  {
    hide Step;
    assert [op][1..] == [];
  }

  /** Every VM was made by some call and not destroyed since. */
  lemma {:induction false} VmBorn(rule: FaultRule, ops: seq<Op>, id: nat) returns (v: nat)
    requires id in Run(Init(rule), ops).vms
    ensures VmMade(rule, ops, v, id)
    decreases |ops|
  {
    hide Step;
    if ops == [] {
      assert false;
    }
    var last := |ops| - 1;
    var s := At(rule, ops, last);
    RunFrom(rule, ops, last);
    if id in s.vms {
      v := VmBorn(rule, ops[..last], id);
      StepSerials(s, ops[last], id);
      assert ops[..last][..v] == ops[..v];
      assert ops[v + 1..] == ops[..last][v + 1..] + [ops[last]];
    } else {
      v := last;
      VmAppears(s, ops[last], id);
    }
  }

  lemma BoAppears(s: State, op: Op, h: nat)
    requires h !in s.bos && h in Step(s, op).0.bos
    ensures op.BoCreate? && op.handle == h && Step(s, op).1
  {
    hide Perform, MapFits;
  }

  lemma {:induction false} BoBorn(rule: FaultRule, ops: seq<Op>, h: nat) returns (b: nat)
    requires h in Run(Init(rule), ops).bos
    ensures BoMade(rule, ops, b, h)
    decreases |ops|
  {
    hide Step;
    if ops == [] {
      assert false;
    }
    var last := |ops| - 1;
    var s := At(rule, ops, last);
    RunFrom(rule, ops, last);
    if h in s.bos {
      b := BoBorn(rule, ops[..last], h);
      assert ops[..last][..b] == ops[..b];
    } else {
      b := last;
      BoAppears(s, ops[last], h);
    }
  }

  lemma GroupIsBorn(rule: FaultRule, ops: seq<Op>, g: nat) returns (n: nat)
    requires g in Run(Init(rule), ops).groups
    ensures GroupMade(rule, ops, n, g)
  {
    hide Run, Step;
    n := GroupBorn(Init(rule), g, ops);
  }

  // ---- a VM since its creation

  lemma CauseBreaks(s: State, id: nat, op: Op)
    requires QueuesFit(s) && id in s.vms && s.vms[id].usable
    ensures Breaks(s, id, op) <==> Cause(s, id, [op], 0)
  {
    if op.RunQueue? && op.vm == id {
      QueueAfter(s, id, op);
      if s.vms[id].queue != [] {
        HeadRuns(s, id);
      }
    }
    assert [op][..0] == [] && Run(s, []) == s;
    hide Step, BindOk;
  }

  lemma CauseCons(s: State, id: nat, ops: seq<Op>, n: nat)
    requires n < |ops|
    ensures n == 0 ==> Cause(s, id, ops, 0) == Cause(s, id, [ops[0]], 0)
    ensures n > 0 ==> Cause(s, id, ops, n) == Cause(Step(s, ops[0]).0, id, ops[1..], n - 1)
  {
    hide Step;
    if n == 0 {
      assert ops[..0] == [ops[0]][..0];
    } else {
      assert ops[..n][1..] == ops[1..][..n - 1];
    }
  }

  /** A usable VM is broken in a run exactly when one of the causes occurs. */
  lemma {:induction false} BreaksMeans(s: State, id: nat, ops: seq<Op>)
    requires QueuesFit(s) && id in s.vms && s.vms[id].usable && VmDestroy(id) !in ops
    ensures EverBreaks(s, id, ops) <==> Caused(s, id, ops)
    decreases |ops|
  {
    hide Step, Breaks, Cause, QueuesFit;
    if ops != [] {
      var s', rest := Step(s, ops[0]).0, ops[1..];
      assert ops[0] in ops;
      CauseBreaks(s, id, ops[0]);
      CauseCons(s, id, ops, 0);
      UsableStep(s, id, ops[0]);
      StepKeepsFit(s, ops[0]);
      if !Breaks(s, id, ops[0]) {
        BreaksMeans(s', id, rest);
        if n :| 0 <= n < |ops| && Cause(s, id, ops, n) {
          CauseCons(s, id, ops, n);
          assert Cause(s', id, rest, n - 1);
        }
        if n :| 0 <= n < |rest| && Cause(s', id, rest, n) {
          CauseCons(s, id, ops, n + 1);
          assert Cause(s, id, ops, n + 1);
        }
      } else {
        assert Cause(s, id, ops, 0);
      }
    }
  }

  lemma CauseShift(rule: FaultRule, id: nat, ops: seq<Op>, v: nat, n: nat)
    requires v < |ops| && n < |ops[v + 1..]|
    ensures Cause(At(rule, ops, v + 1), id, ops[v + 1..], n) == Cause(Init(rule), id, ops, v + 1 + n)
  {
    hide Step, Init;
    RunSplit(Init(rule), ops[..v + 1 + n], v + 1);
    assert ops[..v + 1 + n][..v + 1] == ops[..v + 1] && ops[..v + 1 + n][v + 1..] == ops[v + 1..][..n];
  }

  lemma UnbrokenMeans(rule: FaultRule, ops: seq<Op>, v: nat, id: nat)
    requires v < |ops|
    ensures Unbroken(rule, ops, v, id) <==> !Caused(At(rule, ops, v + 1), id, ops[v + 1..])
  {
    hide Cause, At;
    var rest := ops[v + 1..];
    var made := At(rule, ops, v + 1);
    if n :| 0 <= n < |rest| && Cause(made, id, rest, n) {
      CauseShift(rule, id, ops, v, n);
      assert Cause(Init(rule), id, ops, v + 1 + n);
    }
    if n :| v < n < |ops| && Cause(Init(rule), id, ops, n) {
      CauseShift(rule, id, ops, v, n - v - 1);
      assert Cause(made, id, rest, n - v - 1);
    }
  }

  lemma Created(s: State, op: Op)
    requires op.VmCreate? && Step(s, op).1
    ensures op.id in Step(s, op).0.vms && Step(s, op).0.vms[op.id] == Vm(s.next, true, op.range, map[], [])
  {
  }

  /** A VM is what its creation made it, and unusable exactly when a cause occurred since. */
  lemma VmFacts(rule: FaultRule, ops: seq<Op>, v: nat, id: nat)
    requires VmMade(rule, ops, v, id)
    ensures var s := Run(Init(rule), ops);
            && id in s.vms && s.vms[id].serial == At(rule, ops, v).next && s.vms[id].range == ops[v].range
            && (s.vms[id].usable <==> Unbroken(rule, ops, v, id))
  {
    hide Run, Step, EverBreaks, Unbroken, Caused, QueuesFit, Init;
    var s0, rest := At(rule, ops, v + 1), ops[v + 1..];
    RunFrom(rule, ops, v);
    Created(At(rule, ops, v), ops[v]);
    InitFits(rule);
    RunKeepsFit(Init(rule), ops[..v + 1]);
    VmHistory(s0, id, rest);
    BreaksMeans(s0, id, rest);
    UnbrokenMeans(rule, ops, v, id);
  }

  /** What a VM maps since its creation, in the order its operations were issued. */
  lemma SpaceSinceCreation(rule: FaultRule, ops: seq<Op>, v: nat, id: nat, a: nat)
    requires VmMade(rule, ops, v, id)
    ensures id in Run(Init(rule), ops).vms
    ensures var made, since := At(rule, ops, v + 1), ops[v + 1..];
            ShownAt(Run(Init(rule), ops).vms[id].space, a)
            == LastBind(Performed(made, id, Issued(made, id, since), 0, since), a, map[])
  {
    hide Run, Step, Performed, Issued, LastBind, QueuesFit, Init;
    var made, since := At(rule, ops, v + 1), ops[v + 1..];
    RunFrom(rule, ops, v);
    Created(At(rule, ops, v), ops[v]);
    InitFits(rule);
    RunKeepsFit(Init(rule), ops[..v + 1]);
    SpaceInOrder(made, id, since, a);
    assert [] + Issued(made, id, since) == Issued(made, id, since);
  }

  // ---- a buffer and a group since their creation

  lemma NextMonotone(rule: FaultRule, ops: seq<Op>, m: nat, n: nat)
    requires m <= n <= |ops|
    ensures At(rule, ops, m).next <= At(rule, ops, n).next
    ensures m < n && ops[m].VmCreate? && Accepted(rule, ops, m) ==> At(rule, ops, m).next < At(rule, ops, n).next
    decreases n - m
  {
    hide Run;
    if m < n {
      RunFrom(rule, ops, m);
      NextStep(At(rule, ops, m), ops[m]);
      hide Step;
      NextMonotone(rule, ops, m + 1, n);
    }
  }

  lemma NextStep(s: State, op: Op)
    ensures Step(s, op).0.next == s.next + if op.VmCreate? && Step(s, op).1 then 1 else 0
  {
    hide Perform, MapFits;
  }

  lemma BoCreated(s: State, op: Op)
    requires op.BoCreate? && Step(s, op).1
    ensures op.handle in Step(s, op).0.bos && (op.exclusive != 0 ==> op.exclusive in s.vms)
    ensures Step(s, op).0.bos[op.handle] == Bo(op.size, if op.exclusive == 0 then 0 else s.vms[op.exclusive].serial)
  {
  }

  lemma BoFacts(rule: FaultRule, ops: seq<Op>, b: nat, h: nat)
    requires BoMade(rule, ops, b, h)
    ensures var s, made := Run(Init(rule), ops), At(rule, ops, b);
            && h in s.bos && s.bos[h].size == ops[b].size && (ops[b].exclusive != 0 ==> ops[b].exclusive in made.vms)
            && s.bos[h].owner == if ops[b].exclusive == 0 then 0 else made.vms[ops[b].exclusive].serial
  {
    hide Run, Step, Init;
    RunFrom(rule, ops, b);
    BoCreated(At(rule, ops, b), ops[b]);
    BoStays(At(rule, ops, b + 1), ops[b + 1..], h);
  }

  lemma InvAt(rule: FaultRule, ops: seq<Op>, n: nat)
    requires n <= |ops|
    ensures Inv(At(rule, ops, n))
  {
    hide Inv, Run;
    InitOk(rule);
    RunKeeps(Init(rule), ops[..n]);
  }

  lemma VmMadePrefix(rule: FaultRule, ops: seq<Op>, v: nat, id: nat, n: nat)
    requires VmMade(rule, ops, v, id) && v < n <= |ops|
    ensures VmMade(rule, ops[..n], v, id)
  {
    hide Step, Run;
    assert ops[..n][..v] == ops[..v];
    forall m | v < m < n
      ensures ops[..n][m] != VmDestroy(id)
    {
      assert ops[m] in ops[v + 1..] by {
        assert ops[m] == ops[v + 1..][m - v - 1];
      }
    }
  }

  /** A buffer may be bound to a VM exactly when it was created exclusive to none or, while that VM
      was there, to its id. */
  lemma OwnerMeans(rule: FaultRule, ops: seq<Op>, v: nat, id: nat, b: nat, h: nat)
    requires VmMade(rule, ops, v, id) && BoMade(rule, ops, b, h)
    ensures var s := Run(Init(rule), ops);
            && id in s.vms && h in s.bos
            && (s.bos[h].owner == 0 || s.bos[h].owner == s.vms[id].serial
                <==> ops[b].exclusive == 0 || (ops[b].exclusive == id && v < b))
  {
    hide Run, Step, Init, Inv, Unbroken;
    var made := At(rule, ops, b);
    VmFacts(rule, ops, v, id);
    BoFacts(rule, ops, b, h);
    InvAt(rule, ops, b);
    SerialBounds(made);
    if ops[b].exclusive != 0 {
      if b < v {
        NextMonotone(rule, ops, b, v);
      } else {
        VmMadePrefix(rule, ops, v, id, b);
        VmFacts(rule, ops[..b], v, id);
        assert ops[..b][..v] == ops[..v];
        if made.vms[ops[b].exclusive].serial == made.vms[id].serial {
          SerialUnique(made, ops[b].exclusive, id);
        }
      }
    }
  }

  lemma GroupCreated(s: State, op: Op)
    requires op.GroupCreate? && Step(s, op).1
    ensures op.vm in s.vms && op.group in Step(s, op).0.groups
    ensures Step(s, op).0.groups[op.group] == Group(op.vm, s.vms[op.vm].serial, false, false, false)
  {
  }

  lemma GroupFacts(rule: FaultRule, ops: seq<Op>, n: nat, g: nat)
    requires GroupMade(rule, ops, n, g)
    ensures var s, made := Run(Init(rule), ops), At(rule, ops, n);
            && g in s.groups && s.groups[g].vm == ops[n].vm && ops[n].vm in made.vms
            && s.groups[g].serial == made.vms[ops[n].vm].serial
            && (Alive(s.groups[g]) <==> NeverHit(g, ops[n + 1..]))
  {
    hide Run, Step, Init, NeverHit, KilledInnocent;
    RunFrom(rule, ops, n);
    GroupCreated(At(rule, ops, n), ops[n]);
    FlagHistory(At(rule, ops, n + 1), g, ops[n + 1..]);
    GroupHistory(At(rule, ops, n + 1), g, ops[n + 1..]);
  }

  /** The VM a group was created on serves it exactly when it has not been destroyed or broken
      since its own creation. */
  lemma ServesMeans(rule: FaultRule, ops: seq<Op>, n: nat, g: nat)
    requires GroupMade(rule, ops, n, g)
    ensures g in Run(Init(rule), ops).groups
    ensures VmServes(Run(Init(rule), ops), Run(Init(rule), ops).groups[g])
            <==> exists v: nat :: v < n && VmMade(rule, ops, v, ops[n].vm) && Unbroken(rule, ops, v, ops[n].vm)
  {
    hide Run, Step, Init, Inv, Unbroken, NeverHit, VmMade, Alive;
    var s, made, id := Run(Init(rule), ops), At(rule, ops, n), ops[n].vm;
    GroupFacts(rule, ops, n, g);
    InvAt(rule, ops, n);
    SerialBounds(made);
    if VmServes(s, s.groups[g]) {
      var v := VmBorn(rule, ops, id);
      VmFacts(rule, ops, v, id);
      if n <= v {
        VmMadeInside(rule, ops, v, id);
        NextMonotone(rule, ops, n, v);
      }
    }
    if v: nat :| v < n && VmMade(rule, ops, v, id) && Unbroken(rule, ops, v, id) {
      VmFacts(rule, ops, v, id);
      VmMadePrefix(rule, ops, v, id, n);
      VmFacts(rule, ops[..n], v, id);
      assert ops[..n][..v] == ops[..v];
    }
  }

  lemma VmMadeInside(rule: FaultRule, ops: seq<Op>, v: nat, id: nat)
    requires VmMade(rule, ops, v, id)
    ensures v < |ops|
  {
  }

  // ---- which calls are accepted

  /** VM id, made by call v, may map the range of the buffer that call b made. */
  ghost predicate MayMap(rule: FaultRule, ops: seq<Op>, id: nat, bind: BindOp, v: nat, b: nat)
    requires bind.Map?
  {
    && VmMade(rule, ops, v, id) && Unbroken(rule, ops, v, id)
    && BoMade(rule, ops, b, bind.bo)
    && (ops[b].exclusive == 0 || (ops[b].exclusive == id && v < b))
    && bind.boOffset + bind.size <= ops[b].size && bind.va + bind.size <= ops[v].range
  }

  /** Group g, made by call n on the VM that call v made, may submit. */
  ghost predicate MaySubmit(rule: FaultRule, ops: seq<Op>, g: nat, v: nat, n: nat) {
    && GroupMade(rule, ops, n, g) && NeverHit(g, ops[n + 1..])
    && v < n && VmMade(rule, ops, v, ops[n].vm) && Unbroken(rule, ops, v, ops[n].vm)
  }

  /** VM id, made by call v, has more operations issued than taken up. */
  predicate HasPending(rule: FaultRule, ops: seq<Op>, id: nat, v: nat) {
    && VmMade(rule, ops, v, id)
    && Taken(At(rule, ops, v + 1), id, ops[v + 1..]) < |Issued(At(rule, ops, v + 1), id, ops[v + 1..])|
  }

  ghost predicate CallAllowed(rule: FaultRule, ops: seq<Op>, op: Op) {
    match op
    case VmCreate(id, _) => id != 0 && !VmLive(rule, ops, id)
    case VmDestroy(id) => VmLive(rule, ops, id)
    case BoCreate(h, _, exclusive) =>
      && h != 0 && (forall b: nat :: !BoMade(rule, ops, b, h))
      && (exclusive == 0 || VmLive(rule, ops, exclusive))
    case Bind(id, bind) =>
      !bind.SyncOnly? && if bind.Map? then exists v: nat, b: nat :: MayMap(rule, ops, id, bind, v, b) else VmLive(rule, ops, id)
    case BindAsync(id, bind) =>
      if bind.Map? then exists v: nat, b: nat :: MayMap(rule, ops, id, bind, v, b) else VmLive(rule, ops, id)
    case GroupCreate(g, id) => !GroupLive(rule, ops, g) && VmLive(rule, ops, id)
    case GroupDestroy(g) => GroupLive(rule, ops, g)
    case GroupSubmit(g) => exists v: nat, n: nat :: MaySubmit(rule, ops, g, v, n)
    case RunQueue(id, _) => exists v: nat :: HasPending(rule, ops, id, v)
    case VmBreak(id) => VmLive(rule, ops, id)
    case Timeout(g) => GroupLive(rule, ops, g)
    case Fault(g) => GroupLive(rule, ops, g)
    case Reset(_) => true
  }

  lemma LiveMeans(rule: FaultRule, ops: seq<Op>, i: nat)
    ensures i in Run(Init(rule), ops).vms <==> VmLive(rule, ops, i)
    ensures i in Run(Init(rule), ops).bos <==> exists b: nat :: BoMade(rule, ops, b, i)
    ensures i in Run(Init(rule), ops).groups <==> GroupLive(rule, ops, i)
  {
    hide Run, Init, VmMade, BoMade, GroupMade, Unbroken, NeverHit;
    var s := Run(Init(rule), ops);
    if i in s.vms {
      var v := VmBorn(rule, ops, i);
    }
    if v: nat :| VmMade(rule, ops, v, i) {
      VmFacts(rule, ops, v, i);
    }
    if i in s.bos {
      var b := BoBorn(rule, ops, i);
    }
    if b: nat :| BoMade(rule, ops, b, i) {
      BoFacts(rule, ops, b, i);
    }
    if i in s.groups {
      var n := GroupIsBorn(rule, ops, i);
    }
    if n: nat :| GroupMade(rule, ops, n, i) {
      GroupFacts(rule, ops, n, i);
    }
  }

  /** The two facts about one VM and one buffer. */
  lemma MapOkMeans(rule: FaultRule, ops: seq<Op>, id: nat, bind: BindOp, v: nat, b: nat)
    requires bind.Map? && VmMade(rule, ops, v, id) && BoMade(rule, ops, b, bind.bo)
    ensures MapOk(Run(Init(rule), ops), id, bind) <==> MayMap(rule, ops, id, bind, v, b)
  {
    hide Run, Init, Unbroken, Accepted, Step;
    VmFacts(rule, ops, v, id);
    BoFacts(rule, ops, b, bind.bo);
    OwnerMeans(rule, ops, v, id, b, bind.bo);
  }

  lemma MapMeans(rule: FaultRule, ops: seq<Op>, id: nat, bind: BindOp)
    requires bind.Map?
    ensures MapOk(Run(Init(rule), ops), id, bind) <==> exists v: nat, b: nat :: MayMap(rule, ops, id, bind, v, b)
  {
    hide Run, Init, VmMade, BoMade, Unbroken;
    var s := Run(Init(rule), ops);
    if MapOk(s, id, bind) {
      var v := VmBorn(rule, ops, id);
      var b := BoBorn(rule, ops, bind.bo);
      MapOkMeans(rule, ops, id, bind, v, b);
    }
    if v: nat, b: nat :| MayMap(rule, ops, id, bind, v, b) {
      MapOkMeans(rule, ops, id, bind, v, b);
    }
  }

  lemma SubmitMeans(rule: FaultRule, ops: seq<Op>, g: nat)
    ensures var s := Run(Init(rule), ops);
            (g in s.groups && Alive(s.groups[g]) && VmServes(s, s.groups[g]))
            <==> exists v: nat, n: nat :: MaySubmit(rule, ops, g, v, n)
  {
    hide Run, Init, VmMade, Accepted, Unbroken, NeverHit, Alive, VmServes;
    var s := Run(Init(rule), ops);
    if g in s.groups && Alive(s.groups[g]) && VmServes(s, s.groups[g]) {
      var n := GroupIsBorn(rule, ops, g);
      GroupFacts(rule, ops, n, g);
      ServesMeans(rule, ops, n, g);
      var v: nat :| v < n && VmMade(rule, ops, v, ops[n].vm) && Unbroken(rule, ops, v, ops[n].vm);
      assert MaySubmit(rule, ops, g, v, n);
    }
    if v: nat, n: nat :| MaySubmit(rule, ops, g, v, n) {
      GroupFacts(rule, ops, n, g);
      ServesMeans(rule, ops, n, g);
    }
  }

  lemma PendingMeans(rule: FaultRule, ops: seq<Op>, id: nat)
    ensures var s := Run(Init(rule), ops);
            (id in s.vms && s.vms[id].queue != []) <==> exists v: nat :: HasPending(rule, ops, id, v)
  {
    hide Run, Init, VmMade, Issued, Taken, Unbroken;
    var s := Run(Init(rule), ops);
    if id in s.vms && s.vms[id].queue != [] {
      var v := VmBorn(rule, ops, id);
      PendingOf(rule, ops, id, v);
    }
    if v: nat :| HasPending(rule, ops, id, v) {
      PendingOf(rule, ops, id, v);
    }
  }

  lemma PendingOf(rule: FaultRule, ops: seq<Op>, id: nat, v: nat)
    requires VmMade(rule, ops, v, id)
    ensures id in Run(Init(rule), ops).vms
    ensures Run(Init(rule), ops).vms[id].queue != [] <==> HasPending(rule, ops, id, v)
  {
    hide Run, Init, Issued, Taken, Step;
    RunFrom(rule, ops, v);
    Created(At(rule, ops, v), ops[v]);
    QueueHistory(At(rule, ops, v + 1), id, ops[v + 1..]);
  }

  /** After every run from the empty device, each call is accepted exactly when the calls and
      events so far allow it. */
  lemma CallsAccepted(rule: FaultRule, ops: seq<Op>, op: Op)
    ensures Step(Run(Init(rule), ops), op).1 <==> CallAllowed(rule, ops, op)
  {
    hide Run, Init, VmLive, GroupLive, BoMade, MayMap, MaySubmit, HasPending, MapOk, Perform, Alive, VmServes;
    match op
    case VmCreate(id, _) => LiveMeans(rule, ops, id);
    case VmDestroy(id) => LiveMeans(rule, ops, id);
    case BoCreate(h, _, exclusive) =>
      LiveMeans(rule, ops, h);
      LiveMeans(rule, ops, exclusive);
    case Bind(id, bind) =>
      LiveMeans(rule, ops, id);
      if bind.Map? {
        MapMeans(rule, ops, id, bind);
        MapNeedsVm(Run(Init(rule), ops), id, bind);
      }
    case BindAsync(id, bind) =>
      LiveMeans(rule, ops, id);
      if bind.Map? {
        MapMeans(rule, ops, id, bind);
        MapNeedsVm(Run(Init(rule), ops), id, bind);
      }
    case GroupCreate(g, id) =>
      LiveMeans(rule, ops, g);
      LiveMeans(rule, ops, id);
    case GroupDestroy(g) => LiveMeans(rule, ops, g);
    case GroupSubmit(g) => SubmitMeans(rule, ops, g);
    case RunQueue(id, _) => PendingMeans(rule, ops, id);
    case VmBreak(id) => LiveMeans(rule, ops, id);
    case Timeout(g) => LiveMeans(rule, ops, g);
    case Fault(g) => LiveMeans(rule, ops, g);
    case Reset(_) =>
  }

  lemma MapNeedsVm(s: State, id: nat, bind: BindOp)
    requires bind.Map?
    ensures MapOk(s, id, bind) ==> id in s.vms
  {
  }
}
