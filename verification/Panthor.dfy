/** VMs, buffer objects and scheduling groups of the Panthor uAPI, as far as the header states
    what they do: VM_BIND and its queue, VM states, exclusive buffers and group state flags. */
module Panthor {

  /** Byte a of a VM shows byte `offset` of buffer object `bo`. */
  datatype Target = Target(bo: nat, offset: nat)

  type AddressSpace = map<nat, Target>

  datatype BindOp =
    | Map(bo: nat, boOffset: nat, va: nat, size: nat)
    | Unmap(va: nat, size: nat)
    | SyncOnly

  /** `serial` tells VMs apart that have the same id at different times; `queue` holds the
      asynchronous bind operations not executed yet. */
  datatype Vm = Vm(serial: nat, usable: bool, range: nat, space: AddressSpace, queue: seq<BindOp>)

  /** owner is the serial of the one VM the buffer may be bound to, or 0. */
  datatype Bo = Bo(size: nat, owner: nat)

  /** All submissions to the group use the VM that had id `vm` and this serial at its creation. */
  datatype Group = Group(vm: nat, serial: nat, timedOut: bool, fatalFault: bool, innocent: bool)

  /** What a fatal fault of a group already killed as INNOCENT does to that flag, which the
      header leaves open. */
  datatype FaultRule = ClearsInnocent | KeepsInnocent

  datatype State = State(rule: FaultRule, next: nat, vms: map<nat, Vm>, bos: map<nat, Bo>, groups: map<nat, Group>)

  /** ioctls, and the events that happen on the device's side (the last five). */
  datatype Op =
    | VmCreate(id: nat, range: nat)
    | VmDestroy(id: nat)
    | BoCreate(handle: nat, size: nat, exclusive: nat)
    | Bind(vm: nat, bind: BindOp)
    | BindAsync(vm: nat, bind: BindOp)
    | GroupCreate(group: nat, vm: nat)
    | GroupDestroy(group: nat)
    | GroupSubmit(group: nat)
    | RunQueue(vm: nat, fails: bool)
    | VmBreak(vm: nat)  // anything else that makes a VM unusable
    | Timeout(group: nat)
    | Fault(group: nat)
    | Reset(victims: set<nat>)

  function Init(rule: FaultRule): State {
    State(rule, 1, map[], map[], map[])
  }

  // ---- binding

  function TargetAt(bo: nat, boOffset: nat, va: nat, a: nat): Target
    requires va <= a
  {
    Target(bo, boOffset + (a - va))
  }

  function MapRange(m: AddressSpace, bo: nat, boOffset: nat, va: nat, size: nat): (r: AddressSpace)
    ensures forall a :: a in r <==> a in m || va <= a < va + size
    ensures forall a :: a in r ==> r[a] == if va <= a < va + size then Target(bo, boOffset + (a - va)) else m[a]
  {
    m + (map a | va <= a < va + size :: TargetAt(bo, boOffset, va, a))
  }

  function UnmapRange(m: AddressSpace, va: nat, size: nat): (r: AddressSpace)
    ensures forall a :: a in r <==> a in m && !(va <= a < va + size)
    ensures forall a :: a in r ==> r[a] == m[a]
  {
    map a | a in m && !(va <= a < va + size) :: m[a]
  }

  /** The buffer exists, may be bound to this very VM and holds the range, and the addresses are
      in the VM's user range. */
  predicate MapFits(s: State, id: nat, op: BindOp)
    requires op.Map? && id in s.vms
  {
    && op.bo in s.bos && (s.bos[op.bo].owner == 0 || s.bos[op.bo].owner == s.vms[id].serial)
    && op.boOffset + op.size <= s.bos[op.bo].size && op.va + op.size <= s.vms[id].range
  }

  /** A map operation a VM takes. */
  predicate MapOk(s: State, id: nat, op: BindOp)
    requires op.Map?
  {
    id in s.vms && s.vms[id].usable && MapFits(s, id, op)
  }

  predicate BindOk(s: State, id: nat, op: BindOp) {
    id in s.vms && (op.Map? ==> MapOk(s, id, op))
  }

  function Perform(m: AddressSpace, op: BindOp): AddressSpace {
    match op
    case Map(bo, boOffset, va, size) => MapRange(m, bo, boOffset, va, size)
    case Unmap(va, size) => UnmapRange(m, va, size)
    case SyncOnly => m
  }

  function SetVm(s: State, id: nat, vm: Vm): State {
    s.(vms := s.vms[id := vm])
  }

  function SetGroup(s: State, g: nat, group: Group): State {
    s.(groups := s.groups[g := group])
  }

  /** The head of a VM's queue is executed.  A failure makes the VM unusable; once it is, queued
      maps are dropped and unmaps still happen. */
  function QueueStep(s: State, id: nat, fails: bool): State
    requires id in s.vms && s.vms[id].queue != []
  {
    var vm := s.vms[id];
    var op, rest := vm.queue[0], vm.queue[1..];
    if fails || !BindOk(s, id, op) then SetVm(s, id, vm.(usable := false, queue := rest))
    else SetVm(s, id, vm.(space := Perform(vm.space, op), queue := rest))
  }

  predicate Alive(g: Group) {
    !g.timedOut && !g.fatalFault
  }

  function Killed(g: Group): Group {
    g.(timedOut := true, innocent := g.innocent || Alive(g))
  }

  function Faulted(rule: FaultRule, g: Group): Group {
    g.(fatalFault := true, innocent := g.innocent && rule.KeepsInnocent?)
  }

  /** The group's own VM is still there and usable. */
  predicate VmServes(s: State, g: Group) {
    g.vm in s.vms && s.vms[g.vm].serial == g.serial && s.vms[g.vm].usable
  }

  /** The new state, and whether the call was accepted. */
  function Step(s: State, op: Op): (State, bool) {
    match op
    case VmCreate(id, range) =>
      if id == 0 || id in s.vms then (s, false)
      else (SetVm(s, id, Vm(s.next, true, range, map[], [])).(next := s.next + 1), true)
    case VmDestroy(id) =>
      if id !in s.vms then (s, false) else (s.(vms := s.vms - {id}), true)
    case BoCreate(h, size, exclusive) =>
      if h == 0 || h in s.bos || (exclusive != 0 && exclusive !in s.vms) then (s, false)
      else (s.(bos := s.bos[h := Bo(size, if exclusive == 0 then 0 else s.vms[exclusive].serial)]), true)
    case Bind(id, bind) =>
      if bind.SyncOnly? || !BindOk(s, id, bind) then (s, false)
      else (SetVm(s, id, s.vms[id].(space := Perform(s.vms[id].space, bind))), true)
    case BindAsync(id, bind) =>
      if !BindOk(s, id, bind) then (s, false)
      else (SetVm(s, id, s.vms[id].(queue := s.vms[id].queue + [bind])), true)
    case GroupCreate(g, id) =>
      if g in s.groups || id !in s.vms then (s, false)
      else (SetGroup(s, g, Group(id, s.vms[id].serial, false, false, false)), true)
    case GroupDestroy(g) =>
      if g !in s.groups then (s, false) else (s.(groups := s.groups - {g}), true)
    case GroupSubmit(g) =>
      (s, g in s.groups && Alive(s.groups[g]) && VmServes(s, s.groups[g]))
    case RunQueue(id, fails) =>
      if id !in s.vms || s.vms[id].queue == [] then (s, false) else (QueueStep(s, id, fails), true)
    case VmBreak(id) =>
      if id !in s.vms then (s, false) else (SetVm(s, id, s.vms[id].(usable := false)), true)
    case Timeout(g) =>
      if g !in s.groups then (s, false) else (SetGroup(s, g, s.groups[g].(timedOut := true)), true)
    case Fault(g) =>
      if g !in s.groups then (s, false) else (SetGroup(s, g, Faulted(s.rule, s.groups[g])), true)
    case Reset(victims) =>
      (s.(groups := map g | g in s.groups :: if g in victims then Killed(s.groups[g]) else s.groups[g]), true)
  }

  function Run(s: State, ops: seq<Op>): State
    decreases |ops|
  {
    if ops == [] then s else Run(Step(s, ops[0]).0, ops[1..])
  }

  // ---- what every state keeps

  /** Byte a of VM id is mapped as the rules allow. */
  predicate TargetOk(s: State, id: nat, a: nat, t: Target)
    requires id in s.vms
  {
    && t.bo in s.bos && t.offset < s.bos[t.bo].size && a < s.vms[id].range
    && (s.bos[t.bo].owner == 0 || s.bos[t.bo].owner == s.vms[id].serial)
  }

  ghost predicate VmOk(s: State, id: nat)
    requires id in s.vms
  {
    forall a :: a in s.vms[id].space ==> TargetOk(s, id, a, s.vms[id].space[a])
  }

  /** Serials are never 0, never given out twice and below the next one. */
  ghost predicate SerialsOk(s: State) {
    && (forall id :: id in s.vms ==> 0 < s.vms[id].serial < s.next)
    && (forall i, j :: i in s.vms && j in s.vms && s.vms[i].serial == s.vms[j].serial ==> i == j)
    && (forall g :: g in s.groups ==> s.groups[g].serial < s.next)
  }

  /** Every mapping shows a byte inside an existing buffer, at an address of the user range, and
      an exclusive buffer only in its own VM. */
  ghost predicate Inv(s: State) {
    SerialsOk(s) && 0 < s.next && forall id :: id in s.vms ==> VmOk(s, id)
  }

  /** A change that adds buffers but touches no VM outside `touched` keeps what those map. */
  lemma OthersOk(s: State, s': State, touched: set<nat>)
    requires Inv(s)
    requires forall i :: i in s'.vms && i !in touched ==> i in s.vms && s'.vms[i] == s.vms[i]
    requires forall h :: h in s.bos ==> h in s'.bos && s'.bos[h] == s.bos[h]
    ensures forall i :: i in s'.vms && i !in touched ==> VmOk(s', i)
  {
    forall i | i in s'.vms && i !in touched
      ensures VmOk(s', i)
    {
      assert VmOk(s, i);
      forall a | a in s'.vms[i].space
        ensures TargetOk(s', i, a, s'.vms[i].space[a])
      {
        assert TargetOk(s, i, a, s.vms[i].space[a]);
      }
    }
  }

  /** Changing a VM that keeps its serial. */
  lemma SetVmKeeps(s: State, id: nat, vm: Vm)
    requires Inv(s) && id in s.vms && vm.serial == s.vms[id].serial && VmOk(SetVm(s, id, vm), id)
    ensures Inv(SetVm(s, id, vm))
  {
    hide TargetOk, VmOk;
    OthersOk(s, SetVm(s, id, vm), {id});
  }

  lemma PerformOk(s: State, id: nat, op: BindOp)
    requires Inv(s) && BindOk(s, id, op)
    ensures VmOk(SetVm(s, id, s.vms[id].(space := Perform(s.vms[id].space, op))), id)
  {
    assert VmOk(s, id);
    var vm := s.vms[id].(space := Perform(s.vms[id].space, op));
    var s' := SetVm(s, id, vm);
    forall a | a in vm.space
      ensures TargetOk(s', id, a, vm.space[a])
    {
      if a in s.vms[id].space {
        assert TargetOk(s, id, a, s.vms[id].space[a]);
      }
    }
  }

  /** The state and the queue of a VM do not matter for its mappings. */
  lemma SameSpaceOk(s: State, id: nat, vm: Vm)
    requires id in s.vms && VmOk(s, id)
    requires vm.space == s.vms[id].space && vm.range == s.vms[id].range && vm.serial == s.vms[id].serial
    ensures VmOk(SetVm(s, id, vm), id)
  {
    forall a | a in vm.space
      ensures TargetOk(SetVm(s, id, vm), id, a, vm.space[a])
    {
      assert TargetOk(s, id, a, s.vms[id].space[a]);
    }
  }

  lemma SetVmTwice(s: State, id: nat, vm: Vm, vm': Vm)
    ensures SetVm(SetVm(s, id, vm), id, vm') == SetVm(s, id, vm')
  {
    assert s.vms[id := vm][id := vm'] == s.vms[id := vm'];
  }

  lemma QueueStepKeeps(s: State, id: nat, fails: bool)
    requires Inv(s) && id in s.vms && s.vms[id].queue != []
    ensures Inv(QueueStep(s, id, fails))
  {
    hide Perform, BindOk, TargetOk, VmOk, SerialsOk;
    var vm := s.vms[id];
    assert VmOk(s, id);
    var op := vm.queue[0];
    if fails || !BindOk(s, id, op) {
      var broken := vm.(usable := false, queue := vm.queue[1..]);
      SameSpaceOk(s, id, broken);
      SetVmKeeps(s, id, broken);
    } else {
      var moved := vm.(space := Perform(vm.space, op));
      var done := moved.(queue := vm.queue[1..]);
      PerformOk(s, id, op);
      SameSpaceOk(SetVm(s, id, moved), id, done);
      SetVmTwice(s, id, moved, done);
      SetVmKeeps(s, id, done);
    }
  }

  lemma CreateKeeps(s: State, id: nat, range: nat)
    requires Inv(s) && id !in s.vms
    ensures Inv(SetVm(s, id, Vm(s.next, true, range, map[], [])).(next := s.next + 1))
  {
    hide TargetOk;
    OthersOk(s, SetVm(s, id, Vm(s.next, true, range, map[], [])).(next := s.next + 1), {id});
  }

  lemma BindKeeps(s: State, id: nat, bind: BindOp)
    requires Inv(s) && BindOk(s, id, bind)
    ensures Inv(SetVm(s, id, s.vms[id].(space := Perform(s.vms[id].space, bind))))
  {
    hide TargetOk, Perform, VmOk, SerialsOk;
    PerformOk(s, id, bind);
    SetVmKeeps(s, id, s.vms[id].(space := Perform(s.vms[id].space, bind)));
  }

  /** A change of a VM that does not touch what it maps. */
  lemma SameSpaceKeeps(s: State, id: nat, vm: Vm)
    requires Inv(s) && id in s.vms
    requires vm.space == s.vms[id].space && vm.range == s.vms[id].range && vm.serial == s.vms[id].serial
    ensures Inv(SetVm(s, id, vm))
  {
    hide TargetOk, VmOk, SerialsOk;
    assert VmOk(s, id);
    SameSpaceOk(s, id, vm);
    SetVmKeeps(s, id, vm);
  }

  lemma DestroyKeeps(s: State, id: nat)
    requires Inv(s)
    ensures Inv(s.(vms := s.vms - {id}))
  {
    hide TargetOk, VmOk;
    OthersOk(s, s.(vms := s.vms - {id}), {});
  }

  lemma BoCreateKeeps(s: State, h: nat, bo: Bo)
    requires Inv(s) && h !in s.bos
    ensures Inv(s.(bos := s.bos[h := bo]))
  {
    hide TargetOk, VmOk;
    OthersOk(s, s.(bos := s.bos[h := bo]), {});
  }

  lemma GroupsKeep(s: State, groups: map<nat, Group>)
    requires Inv(s) && forall g :: g in groups ==> groups[g].serial < s.next
    ensures Inv(s.(groups := groups))
  {
    hide TargetOk, VmOk;
    OthersOk(s, s.(groups := groups), {});
  }

  lemma SerialBounds(s: State)
    requires Inv(s)
    ensures forall id :: id in s.vms ==> 0 < s.vms[id].serial < s.next
    ensures forall g :: g in s.groups ==> s.groups[g].serial < s.next
  {
    hide VmOk;
  }

  lemma StepKeeps(s: State, op: Op)
    requires Inv(s)
    ensures Inv(Step(s, op).0)
  {
    hide Inv, Perform, QueueStep, MapOk;
    SerialBounds(s);
    var s' := Step(s, op).0;
    match op
    case VmCreate(id, range) =>
      if id != 0 && id !in s.vms {
        CreateKeeps(s, id, range);
      }
    case VmDestroy(id) => DestroyKeeps(s, id);
    case BoCreate(h, size, exclusive) =>
      if h !in s.bos {
        BoCreateKeeps(s, h, Bo(size, if exclusive in s.vms && exclusive != 0 then s.vms[exclusive].serial else 0));
      }
    case Bind(id, bind) =>
      if BindOk(s, id, bind) {
        BindKeeps(s, id, bind);
      }
    case BindAsync(id, bind) =>
      if BindOk(s, id, bind) {
        SameSpaceKeeps(s, id, s.vms[id].(queue := s.vms[id].queue + [bind]));
      }
    case RunQueue(id, fails) =>
      if id in s.vms && s.vms[id].queue != [] {
        QueueStepKeeps(s, id, fails);
      }
    case VmBreak(id) =>
      if id in s.vms {
        SameSpaceKeeps(s, id, s.vms[id].(usable := false));
      }
    case _ => GroupsKeep(s, s'.groups);
  }

  /** In every run of calls and events, whatever their order and the failures. */
  lemma {:induction false} RunKeeps(s: State, ops: seq<Op>)
    requires Inv(s)
    ensures Inv(Run(s, ops))
    decreases |ops|
  {
    hide Inv, Step;
    if ops != [] {
      StepKeeps(s, ops[0]);
      RunKeeps(Step(s, ops[0]).0, ops[1..]);
    }
  }

  // ---- a VM is itself only

  lemma InitOk(rule: FaultRule)
    ensures Inv(Init(rule))
  {
  }

  lemma StepSerials(s: State, op: Op, id: nat)
    requires id in Step(s, op).0.vms
    ensures Step(s, op).0.next >= s.next
    ensures if id in s.vms then Step(s, op).0.vms[id].serial == s.vms[id].serial && op != VmDestroy(id)
            else Step(s, op).0.vms[id].serial == s.next
  {
    hide Perform, MapOk;
  }

  lemma NextGrows(s: State, op: Op)
    ensures Step(s, op).0.next >= s.next
  {
    hide Perform, MapOk;
  }

  /** A VM that has, after any run, the serial of a VM from before is that VM, under the same id
      and never destroyed in between: destroying a VM and reusing its id makes another VM. */
  lemma {:induction false} SerialIsVm(s: State, serial: nat, ops: seq<Op>, id: nat)
    requires Inv(s) && serial < s.next
    requires id in Run(s, ops).vms && Run(s, ops).vms[id].serial == serial
    ensures id in s.vms && s.vms[id].serial == serial && VmDestroy(id) !in ops
    decreases |ops|
  {
    hide Inv, Step;
    if ops != [] {
      var s' := Step(s, ops[0]).0;
      StepKeeps(s, ops[0]);
      NextGrows(s, ops[0]);
      SerialIsVm(s', serial, ops[1..], id);
      StepSerials(s, ops[0], id);
      assert ops == [ops[0]] + ops[1..];
    }
  }

  lemma {:induction false} BoStays(s: State, ops: seq<Op>, h: nat)
    requires h in s.bos
    ensures h in Run(s, ops).bos && Run(s, ops).bos[h] == s.bos[h]
    decreases |ops|
  {
    hide Perform, MapOk;
    if ops != [] {
      BoStays(Step(s, ops[0]).0, ops[1..], h);
    }
  }

  /** A buffer created exclusive to a VM is visible, after every further run, in that VM only: not
      even a VM that takes over the id sees it. */
  lemma ExclusiveStaysHome(rule: FaultRule, before: seq<Op>, h: nat, size: nat, home: nat, after: seq<Op>, id: nat, a: nat)
    requires home != 0 && Step(Run(Init(rule), before), BoCreate(h, size, home)).1
    requires var s := Run(Step(Run(Init(rule), before), BoCreate(h, size, home)).0, after);
             id in s.vms && a in s.vms[id].space && s.vms[id].space[a].bo == h
    ensures id == home && VmDestroy(home) !in after
  {
    hide Run, Inv;
    InitOk(rule);
    RunKeeps(Init(rule), before);
    var s0 := Run(Init(rule), before);
    var s1 := Step(s0, BoCreate(h, size, home)).0;
    StepKeeps(s0, BoCreate(h, size, home));
    var s2 := Run(s1, after);
    RunKeeps(s1, after);
    BoStays(s1, after, h);
    SerialBounds(s1);
    var serial := s1.vms[home].serial;
    MappedOk(s2, id, a);
    SerialIsVm(s1, serial, after, id);
    SerialUnique(s1, id, home);
  }

  lemma MappedOk(s: State, id: nat, a: nat)
    requires Inv(s) && id in s.vms && a in s.vms[id].space
    ensures TargetOk(s, id, a, s.vms[id].space[a])
  {
    assert VmOk(s, id);
  }

  lemma SerialUnique(s: State, i: nat, j: nat)
    requires Inv(s) && i in s.vms && j in s.vms && s.vms[i].serial == s.vms[j].serial
    ensures i == j
  {
    hide VmOk;
  }

  // ---- what a VM maps

  function ShownAt(m: AddressSpace, a: nat): (r: map<nat, Target>) {
    if a in m then map[a := m[a]] else map[]
  }

  /** The bind operation that a step executes on VM id, if any: a synchronous one that is
      accepted, or the head of the queue when it is executed without failing. */
  function ExecutedBy(s: State, id: nat, op: Op): seq<BindOp> {
    if op.Bind? && op.vm == id && Step(s, op).1 then [op.bind]
    else if op.RunQueue? && op.vm == id && id in s.vms && s.vms[id].queue != [] && !op.fails
            && BindOk(s, id, s.vms[id].queue[0]) then [s.vms[id].queue[0]]
    else []
  }

  /** The bind operations a run executes on VM id, in the order it executes them. */
  function Executed(s: State, id: nat, ops: seq<Op>): seq<BindOp>
    decreases |ops|
  {
    if ops == [] then [] else ExecutedBy(s, id, ops[0]) + Executed(Step(s, ops[0]).0, id, ops[1..])
  }

  predicate Touches(op: BindOp, a: nat) {
    !op.SyncOnly? && op.va <= a < op.va + op.size
  }

  /** What address a shows according to the last operation that covers it. */
  function LastBind(binds: seq<BindOp>, a: nat, before: map<nat, Target>): map<nat, Target> {
    if binds == [] then before else
      var last := binds[|binds| - 1];
      if !Touches(last, a) then LastBind(binds[..|binds| - 1], a, before)
      else if last.Map? then map[a := Target(last.bo, last.boOffset + (a - last.va))]
      else map[]
  }

  lemma PerformShows(m: AddressSpace, op: BindOp, a: nat)
    ensures ShownAt(Perform(m, op), a) == LastBind([op], a, ShownAt(m, a))
  {
    assert [op][..0] == [];
  }

  lemma {:induction false} LastBindConcat(xs: seq<BindOp>, ys: seq<BindOp>, a: nat, before: map<nat, Target>)
    ensures LastBind(xs + ys, a, before) == LastBind(ys, a, LastBind(xs, a, before))
    decreases |ys|
  {
    if ys == [] {
      assert xs + ys == xs;
    } else {
      var front := ys[..|ys| - 1];
      assert (xs + ys)[..|xs + ys| - 1] == xs + front;
      LastBindConcat(xs, front, a, before);
    }
  }

  lemma StepShows(s: State, id: nat, op: Op, a: nat)
    requires id in s.vms && op != VmDestroy(id)
    ensures id in Step(s, op).0.vms
    ensures ShownAt(Step(s, op).0.vms[id].space, a) == LastBind(ExecutedBy(s, id, op), a, ShownAt(s.vms[id].space, a))
  {
    hide Perform, MapOk, LastBind;
    LastBindNone(a, ShownAt(s.vms[id].space, a));
    if op.Bind? && op.vm == id {
      PerformShows(s.vms[id].space, op.bind, a);
    } else if op.RunQueue? && op.vm == id && s.vms[id].queue != [] {
      PerformShows(s.vms[id].space, s.vms[id].queue[0], a);
    }
  }

  lemma LastBindNone(a: nat, before: map<nat, Target>)
    ensures LastBind([], a, before) == before
  {
  }

  /** Over every run that keeps the VM, each address shows exactly what the last executed bind
      operation covering it left there, or what it showed before. */
  lemma {:induction false} SpaceHistory(s: State, id: nat, ops: seq<Op>, a: nat)
    requires id in s.vms && VmDestroy(id) !in ops
    ensures id in Run(s, ops).vms
    ensures ShownAt(Run(s, ops).vms[id].space, a)
         == LastBind(Executed(s, id, ops), a, ShownAt(s.vms[id].space, a))
    decreases |ops|
  {
    hide Step, ExecutedBy, ShownAt, LastBind;
    if ops == [] {
      LastBindNone(a, ShownAt(s.vms[id].space, a));
    } else {
      var s' := Step(s, ops[0]).0;
      assert ops[0] in ops;
      StepShows(s, id, ops[0], a);
      SpaceHistory(s', id, ops[1..], a);
      LastBindConcat(ExecutedBy(s, id, ops[0]), Executed(s', id, ops[1..]), a, ShownAt(s.vms[id].space, a));
    }
  }

  // ---- a VM that became unusable

  predicate Sub(m: AddressSpace, n: AddressSpace) {
    forall a :: a in m ==> a in n && m[a] == n[a]
  }

  predicate Unusable(s: State, id: nat) {
    id in s.vms && !s.vms[id].usable
  }

  lemma UnusableStep(s: State, id: nat, op: Op)
    requires Unusable(s, id) && op != VmDestroy(id)
    ensures Unusable(Step(s, op).0, id) && Sub(Step(s, op).0.vms[id].space, s.vms[id].space)
  {
    hide MapRange, UnmapRange, Killed;
  }

  /** Until it is destroyed, an unusable VM stays unusable and its mapped range only shrinks,
      over every run of calls and events. */
  lemma {:induction false} UnusableForever(s: State, id: nat, ops: seq<Op>)
    requires Unusable(s, id) && VmDestroy(id) !in ops
    ensures Unusable(Run(s, ops), id) && Sub(Run(s, ops).vms[id].space, s.vms[id].space)
    decreases |ops|
  {
    hide Step;
    if ops != [] {
      assert ops[0] in ops;
      UnusableStep(s, id, ops[0]);
      UnusableForever(Step(s, ops[0]).0, id, ops[1..]);
    }
  }

  /** An event that makes VM id unusable: its queue runs an operation that fails or that the VM
      does not take, or anything else breaks it. */
  predicate Breaks(s: State, id: nat, op: Op) {
    || op == VmBreak(id)
    || (&& op.RunQueue? && op.vm == id && id in s.vms && s.vms[id].queue != []
        && (op.fails || !BindOk(s, id, s.vms[id].queue[0])))
  }

  predicate EverBreaks(s: State, id: nat, ops: seq<Op>)
    decreases |ops|
  {
    ops != [] && (Breaks(s, id, ops[0]) || EverBreaks(Step(s, ops[0]).0, id, ops[1..]))
  }

  lemma UsableStep(s: State, id: nat, op: Op)
    requires id in s.vms && op != VmDestroy(id)
    ensures var s' := Step(s, op).0;
            && id in s'.vms && s'.vms[id].serial == s.vms[id].serial && s'.vms[id].range == s.vms[id].range
            && (s'.vms[id].usable <==> s.vms[id].usable && !Breaks(s, id, op))
  {
    hide Perform, MapOk;
  }

  /** Over every run that keeps the VM, it is unusable exactly when it was before or something
      broke it, and it keeps its identity and range. */
  lemma {:induction false} VmHistory(s: State, id: nat, ops: seq<Op>)
    requires id in s.vms && VmDestroy(id) !in ops
    ensures var s' := Run(s, ops);
            && id in s'.vms && s'.vms[id].serial == s.vms[id].serial && s'.vms[id].range == s.vms[id].range
            && (s'.vms[id].usable <==> s.vms[id].usable && !EverBreaks(s, id, ops))
    decreases |ops|
  {
    hide Step, Breaks;
    if ops != [] {
      assert ops[0] in ops;
      UsableStep(s, id, ops[0]);
      VmHistory(Step(s, ops[0]).0, id, ops[1..]);
    }
  }

  /** After any run in which it broke, a VM refuses every map and takes every unmap, synchronous
      or queued. */
  lemma BrokenRefuses(s: State, id: nat, ops: seq<Op>, bind: BindOp)
    requires id in s.vms && VmDestroy(id) !in ops && EverBreaks(s, id, ops)
    ensures Step(Run(s, ops), Bind(id, bind)).1 <==> bind.Unmap?
    ensures Step(Run(s, ops), BindAsync(id, bind)).1 <==> !bind.Map?
  {
    hide Run, EverBreaks;
    VmHistory(s, id, ops);
  }

  /** The only recovery is destroying the VM: a run after which the id is usable destroyed it. */
  lemma RecoveryNeedsDestroy(s: State, id: nat, ops: seq<Op>)
    requires Unusable(s, id) && !Unusable(Run(s, ops), id)
    ensures VmDestroy(id) in ops
  {
    if VmDestroy(id) !in ops {
      UnusableForever(s, id, ops);
    }
  }

  /** Destroying it and creating a VM under the same id gives a usable, empty VM, which takes
      neither the buffers exclusive to the old one nor the jobs of the old one's groups. */
  lemma RecoveryWorks(s: State, id: nat, range: nat, bind: BindOp, g: nat)
    requires Inv(s) && id in s.vms && id != 0 && bind.Map?
    ensures var s' := Run(s, [VmDestroy(id), VmCreate(id, range)]);
            && s'.vms == s.vms[id := Vm(s.next, true, range, map[], [])]
            && s'.bos == s.bos && s'.groups == s.groups
            && (bind.bo in s.bos && s.bos[bind.bo].owner == s.vms[id].serial ==> !Step(s', Bind(id, bind)).1)
            && (g in s.groups && s.groups[g].vm == id ==> !Step(s', GroupSubmit(g)).1)
  {
    hide Inv, Perform;
    SerialBounds(s);
    var ops := [VmDestroy(id), VmCreate(id, range)];
    assert ops[1..] == [VmCreate(id, range)] && ops[1..][1..] == [];
    var s1 := Step(s, ops[0]).0;
    assert Run(s, ops) == Run(s1, ops[1..]) == Step(s1, ops[1]).0;
    assert s.vms[id := Vm(s.next, true, range, map[], [])] == s1.vms[id := Vm(s.next, true, range, map[], [])];
  }

  // ---- groups

  /** The events that kill a group. */
  predicate Hits(g: nat, op: Op) {
    op == Timeout(g) || op == Fault(g) || Takes(g, op)
  }

  predicate Takes(g: nat, op: Op) {
    op.Reset? && g in op.victims
  }

  predicate NeverHit(g: nat, ops: seq<Op>) {
    forall n :: 0 <= n < |ops| ==> !Hits(g, ops[n])
  }

  /** The first event that hits the group is a reset, and no later fault clears the mark. */
  predicate KilledInnocent(rule: FaultRule, g: nat, ops: seq<Op>)
    decreases |ops|
  {
    && ops != []
    && (if Hits(g, ops[0]) then Takes(g, ops[0]) && (rule.ClearsInnocent? ==> Fault(g) !in ops[1..])
        else KilledInnocent(rule, g, ops[1..]))
  }

  /** The reset at position n takes the group alive and no fault follows. */
  predicate InnocentAt(rule: FaultRule, g: nat, ops: seq<Op>, n: nat)
    requires n < |ops|
  {
    Takes(g, ops[n]) && NeverHit(g, ops[..n]) && (rule.ClearsInnocent? ==> Fault(g) !in ops[n + 1..])
  }

  lemma InnocentShift(rule: FaultRule, g: nat, ops: seq<Op>, n: nat)
    requires n + 1 < |ops| && !Hits(g, ops[0])
    ensures InnocentAt(rule, g, ops[1..], n) == InnocentAt(rule, g, ops, n + 1)
  {
    var rest := ops[1..];
    assert ops[..n + 1] == [ops[0]] + rest[..n];
    assert rest[n + 1..] == ops[n + 2..];
    NeverHitCons(g, ops[0], rest[..n]);
  }

  lemma NeverHitCons(g: nat, op: Op, ops: seq<Op>)
    ensures NeverHit(g, [op] + ops) <==> !Hits(g, op) && NeverHit(g, ops)
  {
    hide Hits;
    var all := [op] + ops;
    if NeverHit(g, all) {
      assert !Hits(g, all[0]);
      forall n | 0 <= n < |ops|
        ensures !Hits(g, ops[n])
      {
        assert !Hits(g, all[n + 1]);
      }
    }
  }

  /** In other words: some reset took the group while nothing had hit it yet, and no fault of it
      came later. */
  lemma {:induction false} KilledInnocentMeans(rule: FaultRule, g: nat, ops: seq<Op>)
    ensures KilledInnocent(rule, g, ops) <==> exists n :: 0 <= n < |ops| && InnocentAt(rule, g, ops, n)
    decreases |ops|
  {
    if ops != [] {
      KilledInnocentMeans(rule, g, ops[1..]);
      if Hits(g, ops[0]) {
        assert InnocentAt(rule, g, ops, 0) == KilledInnocent(rule, g, ops);
        forall n | 0 < n < |ops|
          ensures !InnocentAt(rule, g, ops, n)
        {
          assert Hits(g, ops[..n][0]);
        }
      } else {
        ShiftAll(rule, g, ops);
      }
    }
  }

  lemma ShiftAll(rule: FaultRule, g: nat, ops: seq<Op>)
    requires ops != [] && !Hits(g, ops[0])
    ensures (exists n :: 0 <= n < |ops| && InnocentAt(rule, g, ops, n))
            <==> (exists n :: 0 <= n < |ops[1..]| && InnocentAt(rule, g, ops[1..], n))
  {
    assert !Takes(g, ops[0]);
    if n :| 0 <= n < |ops| && InnocentAt(rule, g, ops, n) {
      InnocentShift(rule, g, ops, n - 1);
      assert InnocentAt(rule, g, ops[1..], n - 1);
    }
    if n :| 0 <= n < |ops[1..]| && InnocentAt(rule, g, ops[1..], n) {
      InnocentShift(rule, g, ops, n);
      assert InnocentAt(rule, g, ops, n + 1);
    }
  }

  lemma StepKeepsGroup(s: State, g: nat, op: Op)
    requires g in s.groups && op != GroupDestroy(g)
    ensures var s' := Step(s, op).0;
            && g in s'.groups && s'.rule == s.rule
            && s'.groups[g] == (if op == Timeout(g) then s.groups[g].(timedOut := true)
                                else if op == Fault(g) then Faulted(s.rule, s.groups[g])
                                else if Takes(g, op) then Killed(s.groups[g])
                                else s.groups[g])
  {
    hide Perform, MapOk, Killed, Faulted;
  }

  /** A dead group stays dead and is INNOCENT as long as it was and no fault clears it. */
  lemma {:induction false} DeadHistory(s: State, g: nat, ops: seq<Op>)
    requires g in s.groups && !Alive(s.groups[g]) && GroupDestroy(g) !in ops
    ensures var s' := Run(s, ops);
            && g in s'.groups && !Alive(s'.groups[g])
            && (s'.groups[g].innocent <==> s.groups[g].innocent && (s.rule.ClearsInnocent? ==> Fault(g) !in ops))
    decreases |ops|
  {
    hide Step;
    if ops != [] {
      assert ops == [ops[0]] + ops[1..];
      StepKeepsGroup(s, g, ops[0]);
      DeadHistory(Step(s, ops[0]).0, g, ops[1..]);
    }
  }

  /** Over every run that keeps a group which was alive, it is dead exactly when a timeout, a
      fault or a reset of it occurred, and INNOCENT exactly when a reset killed it. */
  lemma {:induction false} GroupHistory(s: State, g: nat, ops: seq<Op>)
    requires g in s.groups && Alive(s.groups[g]) && !s.groups[g].innocent && GroupDestroy(g) !in ops
    ensures g in Run(s, ops).groups
    ensures Alive(Run(s, ops).groups[g]) <==> NeverHit(g, ops)
    ensures Run(s, ops).groups[g].innocent <==> KilledInnocent(s.rule, g, ops)
    decreases |ops|
  {
    hide Step;
    if ops != [] {
      var op, rest := ops[0], ops[1..];
      assert ops == [op] + rest;
      NeverHitCons(g, op, rest);
      StepKeepsGroup(s, g, op);
      if Hits(g, op) {
        DeadHistory(Step(s, op).0, g, rest);
      } else {
        GroupHistory(Step(s, op).0, g, rest);
      }
    }
  }

  /** A group keeps its VM, and its two causes of death show in its flags. */
  lemma {:induction false} FlagHistory(s: State, g: nat, ops: seq<Op>)
    requires g in s.groups && GroupDestroy(g) !in ops
    ensures g in Run(s, ops).groups
    ensures Run(s, ops).groups[g].vm == s.groups[g].vm && Run(s, ops).groups[g].serial == s.groups[g].serial
    ensures Run(s, ops).groups[g].fatalFault <==> s.groups[g].fatalFault || Fault(g) in ops
    ensures Run(s, ops).groups[g].timedOut <==>
              s.groups[g].timedOut || Timeout(g) in ops || exists n :: 0 <= n < |ops| && Takes(g, ops[n])
    decreases |ops|
  {
    hide Step;
    if ops != [] {
      var op, rest := ops[0], ops[1..];
      assert ops == [op] + rest;
      StepKeepsGroup(s, g, op);
      FlagHistory(Step(s, op).0, g, rest);
      TakenCons(g, op, rest);
    }
  }

  lemma TakenCons(g: nat, op: Op, ops: seq<Op>)
    ensures (exists n :: 0 <= n < |[op] + ops| && Takes(g, ([op] + ops)[n]))
            <==> Takes(g, op) || exists n :: 0 <= n < |ops| && Takes(g, ops[n])
  {
    hide Takes;
    var all := [op] + ops;
    if n :| 0 <= n < |all| && Takes(g, all[n]) {
      assert n == 0 || all[n] == ops[n - 1];
    }
    if Takes(g, op) {
      assert Takes(g, all[0]);
    }
    if n :| 0 <= n < |ops| && Takes(g, ops[n]) {
      assert Takes(g, all[n + 1]);
    }
  }

  /** The documented rule: INNOCENT only with TIMEDOUT and without FATAL_FAULT. */
  predicate FlagsDocumented(g: Group) {
    g.innocent ==> g.timedOut && !g.fatalFault
  }

  lemma {:induction false} InnocentNeedsTake(rule: FaultRule, g: nat, ops: seq<Op>)
    requires KilledInnocent(rule, g, ops)
    ensures exists n :: 0 <= n < |ops| && Takes(g, ops[n])
    ensures Fault(g) in ops ==> rule.KeepsInnocent?
    decreases |ops|
  {
    assert ops == [ops[0]] + ops[1..];
    TakenCons(g, ops[0], ops[1..]);
    if !Hits(g, ops[0]) {
      InnocentNeedsTake(rule, g, ops[1..]);
    }
  }

  /** If a later fault clears INNOCENT, every run keeps the documented rule.  If it does not, a run
      breaks the rule exactly when the group is killed by a reset and faults as well. */
  lemma FlagsExact(s: State, g: nat, ops: seq<Op>)
    requires g in s.groups && GroupDestroy(g) !in ops
    requires !s.groups[g].timedOut && !s.groups[g].fatalFault && !s.groups[g].innocent
    ensures g in Run(s, ops).groups
    ensures FlagsDocumented(Run(s, ops).groups[g]) <==> !(KilledInnocent(s.rule, g, ops) && Fault(g) in ops)
    ensures s.rule.ClearsInnocent? ==> FlagsDocumented(Run(s, ops).groups[g])
  {
    hide Run, KilledInnocent;
    GroupHistory(s, g, ops);
    FlagHistory(s, g, ops);
    if KilledInnocent(s.rule, g, ops) {
      InnocentNeedsTake(s.rule, g, ops);
    }
  }

  /** The shortest run that breaks the rule when a fault keeps INNOCENT. */
  lemma FaultAfterReset(s: State, g: nat)
    requires g in s.groups && Alive(s.groups[g]) && !s.groups[g].innocent
    ensures g in Run(s, [Reset({g}), Fault(g)]).groups
    ensures FlagsDocumented(Run(s, [Reset({g}), Fault(g)]).groups[g]) <==> s.rule.ClearsInnocent?
  {
    var ops := [Reset({g}), Fault(g)];
    FlagsExact(s, g, ops);
    assert g in {g} && ops[1] in ops && ops[1..] == [Fault(g)];
    assert Fault(g) in ops[1..];
    hide Run;
  }

  /** Every group of every run was created by some step and not destroyed since, so the results
      on groups that start alive speak of all groups. */
  lemma {:induction false} GroupBorn(s: State, g: nat, ops: seq<Op>) returns (n: nat)
    requires g !in s.groups && g in Run(s, ops).groups
    ensures n < |ops| && ops[n].GroupCreate? && ops[n].group == g && Step(Run(s, ops[..n]), ops[n]).1
    ensures GroupDestroy(g) !in ops[n + 1..]
    ensures Run(s, ops) == Run(Step(Run(s, ops[..n]), ops[n]).0, ops[n + 1..])
    decreases |ops|
  {
    hide Step;
    var s' := Step(s, ops[0]).0;
    var rest := ops[1..];
    if g !in s'.groups {
      var m := GroupBorn(s', g, rest);
      n := m + 1;
      assert ops[..n][1..] == rest[..m] && ops[n + 1..] == rest[m + 1..];
    } else if GroupDestroy(g) in rest {
      var m := BornAfterDestroy(s', g, rest);
      n := m + 1;
      assert ops[..n][1..] == rest[..m] && ops[n + 1..] == rest[m + 1..];
    } else {
      n := 0;
      GroupAppears(s, g, ops[0]);
      assert ops[..0] == [] && ops[0 + 1..] == rest;
    }
  }

  lemma GroupAppears(s: State, g: nat, op: Op)
    requires g !in s.groups && g in Step(s, op).0.groups
    ensures op.GroupCreate? && op.group == g && Step(s, op).1
  {
    hide Perform, MapOk;
  }

  lemma DestroyRemoves(s: State, g: nat)
    ensures g !in Step(s, GroupDestroy(g)).0.groups
  {
  }

  lemma {:induction false} BornAfterDestroy(s: State, g: nat, ops: seq<Op>) returns (n: nat)
    requires GroupDestroy(g) in ops && g in Run(s, ops).groups
    ensures n < |ops| && ops[n].GroupCreate? && ops[n].group == g && Step(Run(s, ops[..n]), ops[n]).1
    ensures GroupDestroy(g) !in ops[n + 1..]
    ensures Run(s, ops) == Run(Step(Run(s, ops[..n]), ops[n]).0, ops[n + 1..])
    decreases |ops|, 0
  {
    hide Step;
    var s' := Step(s, ops[0]).0;
    var rest := ops[1..];
    var m: nat;
    if GroupDestroy(g) in rest {
      m := BornAfterDestroy(s', g, rest);
    } else {
      assert ops == [ops[0]] + rest;
      DestroyRemoves(s, g);
      m := GroupBorn(s', g, rest);
    }
    n := m + 1;
    assert ops[..n][1..] == rest[..m] && ops[n + 1..] == rest[m + 1..];
  }

  /** In every run from the empty device, for every group: since the step that created it, it is
      dead exactly when an event hit it, and INNOCENT exactly when a reset killed it alive and no
      later fault cleared the mark. */
  lemma GroupsOfRun(rule: FaultRule, ops: seq<Op>, g: nat) returns (n: nat)
    requires g in Run(Init(rule), ops).groups
    ensures n < |ops| && ops[n].GroupCreate? && ops[n].group == g && GroupDestroy(g) !in ops[n + 1..]
    ensures Alive(Run(Init(rule), ops).groups[g]) <==> NeverHit(g, ops[n + 1..])
    ensures var since := ops[n + 1..];
            Run(Init(rule), ops).groups[g].innocent <==>
              exists k :: 0 <= k < |since| && InnocentAt(rule, g, since, k)
  {
    hide Run, Alive, NeverHit, KilledInnocent, InnocentAt;
    n := GroupBorn(Init(rule), g, ops);
    var s := Run(Init(rule), ops[..n]);
    RunKeepsRule(Init(rule), ops[..n]);
    var s' := Step(s, ops[n]).0;
    CreatedAlive(s, ops[n]);
    GroupHistory(s', g, ops[n + 1..]);
    KilledInnocentMeans(rule, g, ops[n + 1..]);
  }

  lemma CreatedAlive(s: State, op: Op)
    requires op.GroupCreate? && Step(s, op).1
    ensures var s' := Step(s, op).0;
            op.group in s'.groups && Alive(s'.groups[op.group]) && !s'.groups[op.group].innocent && s'.rule == s.rule
  {
  }

  lemma {:induction false} RunKeepsRule(s: State, ops: seq<Op>)
    ensures Run(s, ops).rule == s.rule
    decreases |ops|
  {
    hide Perform, MapOk;
    if ops != [] {
      RunKeepsRule(Step(s, ops[0]).0, ops[1..]);
    }
  }

  lemma NeverHitMeans(g: nat, ops: seq<Op>)
    ensures NeverHit(g, ops) <==>
              Timeout(g) !in ops && Fault(g) !in ops && !exists n :: 0 <= n < |ops| && Takes(g, ops[n])
  {
    hide Takes;
    if NeverHit(g, ops) {
      assert forall n :: 0 <= n < |ops| ==> !Hits(g, ops[n]);
    }
  }

  /** A VM serves after a run exactly when it did before and was neither destroyed nor broken. */
  lemma ServesExact(s: State, group: Group, ops: seq<Op>)
    requires Inv(s) && group.serial < s.next
    ensures VmServes(Run(s, ops), group) <==>
              VmServes(s, group) && VmDestroy(group.vm) !in ops && !EverBreaks(s, group.vm, ops)
  {
    hide Run, EverBreaks, Inv;
    var id := group.vm;
    if id in s.vms && VmDestroy(id) !in ops {
      VmHistory(s, id, ops);
    } else if VmServes(Run(s, ops), group) {
      SerialIsVm(s, group.serial, ops, id);
    }
  }

  /** A group takes a job after a run exactly when it was alive, its own VM served, and in the run
      nothing hit the group and the VM was neither destroyed nor broken.  In particular a group
      whose VM was destroyed never takes a job again, whatever VM gets the id. */
  lemma JobsTaken(s: State, g: nat, ops: seq<Op>)
    requires Inv(s) && g in s.groups && GroupDestroy(g) !in ops
    ensures Step(Run(s, ops), GroupSubmit(g)).1 <==>
              && Alive(s.groups[g]) && VmServes(s, s.groups[g]) && NeverHit(g, ops)
              && VmDestroy(s.groups[g].vm) !in ops && !EverBreaks(s, s.groups[g].vm, ops)
  {
    hide Run, EverBreaks, Inv, NeverHit;
    SerialBounds(s);
    FlagHistory(s, g, ops);
    NeverHitMeans(g, ops);
    ServesExact(s, s.groups[g], ops);
  }

  // ---- queued and synchronous operations

  /** A queued operation that runs at once does what the synchronous call does. */
  lemma AsyncIsSync(s: State, id: nat, bind: BindOp)
    requires id in s.vms && BindOk(s, id, bind) && !bind.SyncOnly? && s.vms[id].queue == []
    ensures Run(s, [BindAsync(id, bind), RunQueue(id, false)]) == Step(s, Bind(id, bind)).0
  {
    hide Perform, BindOk;
    var ops := [BindAsync(id, bind), RunQueue(id, false)];
    assert ops[1..] == [RunQueue(id, false)] && ops[1..][1..] == [];
    var s1 := Step(s, ops[0]).0;
    assert s1.vms[id].queue == [bind] && [bind][1..] == [];
    SameBindOk(s, id, s1.vms[id], bind);
    var s2 := QueueStep(s1, id, false);
    assert Run(s, ops) == Run(s1, ops[1..]) == s2;
    SetVmTwice(s, id, s1.vms[id], s2.vms[id]);
  }

  /** Only the VM's identity, state and range decide whether it takes an operation. */
  lemma SameBindOk(s: State, id: nat, vm: Vm, op: BindOp)
    requires id in s.vms && vm.usable == s.vms[id].usable && vm.range == s.vms[id].range
    requires vm.serial == s.vms[id].serial
    ensures BindOk(SetVm(s, id, vm), id, op) == BindOk(s, id, op)
  {
  }
}
