/**
 The libvirt processing pipeline (internal/libvirt/libvirt.go): six steps that each fill part of
 the hypervisor status, run in order until one fails.
 */
module Processing {
  import opened Wrappers
  import opened Sums
  import opened Capacity
  import opened CapacityLaws
  import Units

  /** Everything libvirt answers during one call; the topology is asked for twice. */
  datatype Answers = Answers(
    version: string,
    hypervisorVersion: string,
    active: Outcome<seq<DomainInfo>>,
    inactive: Outcome<seq<DomainInfo>>,
    arch: string,
    caps: Outcome<seq<TopologyCell>>,
    domainCapabilities: Outcome<DomainCapabilities>,
    capsAgain: Outcome<seq<TopologyCell>>,
    all: Outcome<seq<DomainInfo>>)

  const STEPS: nat := 6

  // ----- what each step does --------------------------------------------------------

  function InstancesOf(doms: seq<DomainInfo>, active: bool): seq<Instance> {
    seq(|doms|, i requires 0 <= i < |doms| => Instance(doms[i].uuid, doms[i].name, active))
  }

  function AllInstances(a: Answers): seq<Instance>
    requires a.active.Ok? && a.inactive.Ok?
  {
    InstancesOf(a.active.value, true) + InstancesOf(a.inactive.value, false)
  }

  /** Whether a step fails depends on the answers alone, never on the status it is given. */
  function StepFault(k: nat, a: Answers): Option<Fault> {
    match k
    case 1 =>
      if a.active.Failed? then Some(a.active.fault)
      else if a.inactive.Failed? then Some(a.inactive.fault) else None
    case 2 => CapabilitiesFault(a.caps)
    case 3 => if a.domainCapabilities.Failed? then Some(a.domainCapabilities.fault) else None
    case 4 => AllocationFault(a.capsAgain, a.all)
    case _ => None
  }

  /** What step `k`, when it does not fail, makes of a status; only the cell order is left open. */
  ghost predicate Does(k: nat, a: Answers, before: Hypervisor, after: Hypervisor)
    requires StepFault(k, a).None?
  {
    match k
    case 0 => after == before.(libvirtVersion := a.version, hypervisorVersion := a.hypervisorVersion)
    case 1 => after == before.(instances := AllInstances(a), numInstances := |AllInstances(a)|)
    case 2 => after == before.(
      hostCpuArch := a.arch,
      hostMemory := Sum(a.caps.value, CellAmount(Memory)),
      hostCpus := Sum(a.caps.value, CellAmount(Cpu)))
    case 3 => after == before.(domainCapabilities := a.domainCapabilities.value)
    case 4 => Accounted(a.capsAgain.value, a.all.value, before, after)
    case 5 => after == WithEffectiveCapacity(before)
    case _ => false
  }

  /** The first failing step at or after `k`, or STEPS. */
  function FailingStep(a: Answers, k: nat): (n: nat)
    requires k <= STEPS
    ensures k <= n <= STEPS
    ensures forall i | k <= i < n :: StepFault(i, a).None?
    ensures n < STEPS ==> StepFault(n, a).Some?
    decreases STEPS - k
  {
    if k == STEPS || StepFault(k, a).Some? then k else FailingStep(a, k + 1)
  }

  // ----- the steps and the pipeline -------------------------------------------------

  method AppendInstances(instances: seq<Instance>, doms: seq<DomainInfo>, active: bool) returns (out: seq<Instance>)
    ensures out == instances + InstancesOf(doms, active)
  {
    out := instances;
    for i := 0 to |doms|
      invariant out == instances + InstancesOf(doms, active)[..i]
    {
      out := out + [Instance(doms[i].uuid, doms[i].name, active)];
    }
  }

  /** Active domains first, then inactive ones. */
  method AddInstancesInfo(a: Answers, hv: Hypervisor) returns (r: Outcome<Hypervisor>)
    ensures StepFault(1, a).Some? ==> r == Failed(StepFault(1, a).value)
    ensures StepFault(1, a).None? ==> r.Ok? && Does(1, a, hv, r.value)
  {
    if a.active.Failed? {
      return Failed(a.active.fault);
    }
    var instances := AppendInstances([], a.active.value, true);
    if a.inactive.Failed? {
      return Failed(a.inactive.fault);
    }
    instances := AppendInstances(instances, a.inactive.value, false);
    assert instances == AllInstances(a);
    r := Ok(hv.(instances := instances, numInstances := |instances|));
  }

  method RunStep(k: nat, a: Answers, hv: Hypervisor) returns (r: Outcome<Hypervisor>)
    requires k < STEPS
    ensures StepFault(k, a).Some? ==> r == Failed(StepFault(k, a).value)
    ensures StepFault(k, a).None? ==> r.Ok? && Does(k, a, hv, r.value)
  {
    match k
    case 0 => r := Ok(hv.(libvirtVersion := a.version, hypervisorVersion := a.hypervisorVersion));
    case 1 => r := AddInstancesInfo(a, hv);
    case 2 => r := AddCapabilities(a.caps, a.arch, hv);
    case 3 =>
      if a.domainCapabilities.Failed? {
        return Failed(a.domainCapabilities.fault);
      }
      r := Ok(hv.(domainCapabilities := a.domainCapabilities.value));
    case 4 => r := AddAllocationCapacity(a.capsAgain, a.all, hv);
    case 5 =>
      var out := AddEffectiveCapacity(hv);
      r := Ok(out);
  }

  /** A run of the first `n` steps from `hv` to `out`, step by step. */
  ghost predicate Run(a: Answers, hv: Hypervisor, trace: seq<Hypervisor>, out: Hypervisor, n: nat) {
    && n <= STEPS && |trace| == n + 1 && trace[0] == hv && trace[n] == out
    && (forall i | 0 <= i < n :: StepFault(i, a).None?)
    && forall i | 0 <= i < n :: Does(i, a, trace[i], trace[i + 1])
  }

  /**
   Process stops at the first failing step and returns what the steps before it made; a fault
   of kind NilDereference stands for the panic that then leaves no result.
   */
  method Process(a: Answers, hv: Hypervisor)
    returns (out: Hypervisor, fault: Option<Fault>, ghost trace: seq<Hypervisor>)
    ensures Run(a, hv, trace, out, FailingStep(a, 0))
    ensures fault == if FailingStep(a, 0) < STEPS then StepFault(FailingStep(a, 0), a) else None
    ensures fault.None? <==> Succeeds(a)
  {
    SuccessCondition(a);
    out, trace := hv, [hv];
    for k := 0 to STEPS
      invariant Run(a, hv, trace, out, k)
      invariant FailingStep(a, 0) == FailingStep(a, k)
    {
      var r := RunStep(k, a, out);
      if r.Failed? {
        return out, Some(r.fault), trace;
      }
      out := r.value;
      trace := trace + [out];
    }
    fault := None;
  }

  // ----- what a failed run leaves ---------------------------------------------------

  /** The fields of `hv` that steps before `k` fill already hold what those steps would write. */
  predicate AlreadyFilled(a: Answers, hv: Hypervisor, k: nat) {
    && (k > 0 ==> hv.libvirtVersion == a.version && hv.hypervisorVersion == a.hypervisorVersion)
    && (k > 1 && StepFault(1, a).None? ==> hv.instances == AllInstances(a) && hv.numInstances == |AllInstances(a)|)
    && (k > 2 && StepFault(2, a).None? ==>
        && hv.hostCpuArch == a.arch
        && hv.hostMemory == Sum(a.caps.value, CellAmount(Memory))
        && hv.hostCpus == Sum(a.caps.value, CellAmount(Cpu)))
    && (k > 3 && StepFault(3, a).None? ==> hv.domainCapabilities == a.domainCapabilities.value)
  }

  /**
   A failed call never shows half an accounting: totals, cells and effective capacities are the
   old ones. The rest is returned unmodified, as the comment on Process promises, only if the
   steps that ran had nothing new to say.
   */
  lemma FailureLeaves(a: Answers, hv: Hypervisor, trace: seq<Hypervisor>, out: Hypervisor, n: nat)
    requires n == FailingStep(a, 0) < STEPS
    requires Run(a, hv, trace, out, n)
    ensures 1 <= n <= 4
    ensures out.capacity == hv.capacity && out.allocation == hv.allocation
    ensures out.effectiveCapacity == hv.effectiveCapacity && out.cells == hv.cells
    ensures out.overcommit == hv.overcommit && out.conditions == hv.conditions
    ensures out == hv <==> AlreadyFilled(a, hv, n)
  {
    assert StepFault(0, a).None? && StepFault(5, a).None?;
    assert Does(0, a, trace[0], trace[1]);
    if n > 1 {
      assert Does(1, a, trace[1], trace[2]);
    }
    if n > 2 {
      assert Does(2, a, trace[2], trace[3]);
    }
    if n > 3 {
      assert Does(3, a, trace[3], trace[4]);
    }
  }

  /** The comment's promise is broken by the plainest failure: libvirt cannot list domains on a fresh object. */
  lemma UnmodifiedPromiseFails(blank: Hypervisor, trace: seq<Hypervisor>, out: Hypervisor)
    requires blank.libvirtVersion == ""
    requires var a := Answers("8.0.0", "50.0.0", Failed(Unreachable("libvirt")), Ok([]), "x86_64", Ok([]),
                              Failed(Unreachable("libvirt")), Ok([]), Ok([]));
      Run(a, blank, trace, out, FailingStep(a, 0))
    ensures out != blank
  {
    var a := Answers("8.0.0", "50.0.0", Failed(Unreachable("libvirt")), Ok([]), "x86_64", Ok([]),
                     Failed(Unreachable("libvirt")), Ok([]), Ok([]));
    assert StepFault(1, a).Some?;
    FailureLeaves(a, blank, trace, out, FailingStep(a, 0));
  }

  // ----- what a successful run leaves -----------------------------------------------

  /** The calls that succeed: every answer arrives and no check fails. */
  predicate Succeeds(a: Answers) {
    && a.active.Ok? && a.inactive.Ok? && a.caps.Ok? && a.domainCapabilities.Ok? && a.capsAgain.Ok? && a.all.Ok?
    && CapabilitiesFault(a.caps).None?
    && AllocationFault(a.capsAgain, a.all).None?
  }

  lemma SuccessCondition(a: Answers)
    ensures Succeeds(a) <==> FailingStep(a, 0) == STEPS
  {
    if FailingStep(a, 0) == STEPS {
      assert StepFault(1, a).None? && StepFault(2, a).None? && StepFault(3, a).None? && StepFault(4, a).None?;
    }
    assert StepFault(0, a).None? && StepFault(5, a).None?;
  }

  /** After step five the status holds exactly what the answers and the specification say. */
  lemma FiveSteps(a: Answers, hv: Hypervisor, trace: seq<Hypervisor>, out: Hypervisor)
    requires Succeeds(a) && Run(a, hv, trace, out, STEPS)
    ensures var mid := trace[5];
      && out == WithEffectiveCapacity(mid)
      && Accounted(a.capsAgain.value, a.all.value, trace[4], mid)
      && mid == hv.(
           libvirtVersion := a.version,
           hypervisorVersion := a.hypervisorVersion,
           instances := AllInstances(a),
           numInstances := |AllInstances(a)|,
           hostCpuArch := a.arch,
           hostMemory := Sum(a.caps.value, CellAmount(Memory)),
           hostCpus := Sum(a.caps.value, CellAmount(Cpu)),
           domainCapabilities := a.domainCapabilities.value,
           capacity := BothAmounts(Sum(a.capsAgain.value, CellAmount(Memory)), Sum(a.capsAgain.value, CellAmount(Cpu))),
           allocation := BothAmounts(Sum(a.all.value, TakenOf(Memory)), Sum(a.all.value, TakenOf(Cpu))),
           cells := mid.cells)
  {
    assert Does(0, a, trace[0], trace[1]);
    assert Does(1, a, trace[1], trace[2]);
    assert Does(2, a, trace[2], trace[3]);
    assert Does(3, a, trace[3], trace[4]);
    assert Does(4, a, trace[4], trace[5]);
    assert Does(5, a, trace[5], trace[6]);
  }

  /**
   The result of a successful call depends on the answers, the overcommit ratios and the fields
   libvirt does not fill, and on nothing else that was in the status before: no stale cell, total
   or effective capacity gets through.
   */
  lemma Determined(
    a: Answers, hv1: Hypervisor, trace1: seq<Hypervisor>, out1: Hypervisor,
    hv2: Hypervisor, trace2: seq<Hypervisor>, out2: Hypervisor)
    requires Succeeds(a) && Run(a, hv1, trace1, out1, STEPS) && Run(a, hv2, trace2, out2, STEPS)
    requires hv1.overcommit == hv2.overcommit && hv1.conditions == hv2.conditions
    ensures SameUpToCellOrder(out1, out2)
  {
    FiveSteps(a, hv1, trace1, out1);
    FiveSteps(a, hv2, trace2, out2);
    MapPermutation(trace1[5].cells, trace2[5].cells, Rescaled(hv1.overcommit));
  }

  /** Running the pipeline again on its own output changes nothing but, possibly, the order of the cells. */
  lemma Idempotent(
    a: Answers, hv: Hypervisor, trace1: seq<Hypervisor>, out1: Hypervisor, trace2: seq<Hypervisor>, out2: Hypervisor)
    requires Succeeds(a) && Run(a, hv, trace1, out1, STEPS) && Run(a, out1, trace2, out2, STEPS)
    ensures SameUpToCellOrder(out1, out2)
  {
    FiveSteps(a, hv, trace1, out1);
    Determined(a, hv, trace1, out1, out1, trace2, out2);
  }

  lemma CellFieldsKept(cells: seq<Cell>, overcommit: map<ResourceName, real>, r: ResourceName)
    ensures Sum(Map(cells, Rescaled(overcommit)), AllocIn(r)) == Sum(cells, AllocIn(r))
    ensures Sum(Map(cells, Rescaled(overcommit)), CapacityIn(r)) == Sum(cells, CapacityIn(r))
  {
    SumPointwise(Map(cells, Rescaled(overcommit)), AllocIn(r), cells, AllocIn(r));
    SumPointwise(Map(cells, Rescaled(overcommit)), CapacityIn(r), cells, CapacityIn(r));
  }

  /**
   The whole pipeline, for every successful call: allocation is conserved up to the remainders;
   and for one consistent topology with distinct ids, the host totals, the capacity and the sum
   over the cells agree, while flooring costs less than one unit a cell.
   */
  lemma StatusAddsUp(a: Answers, hv: Hypervisor, trace: seq<Hypervisor>, out: Hypervisor, r: ResourceName)
    requires Succeeds(a) && Run(a, hv, trace, out, STEPS)
    ensures r in out.allocation && r in out.capacity && r in out.effectiveCapacity
    ensures out.allocation[r] == Sum(out.cells, AllocIn(r)) + Sum(a.all.value, LostOf(r))
    ensures a.caps == a.capsAgain && DistinctIds(a.caps.value) ==>
      && Sum(out.cells, CapacityIn(r)) == out.capacity[r]
      && out.capacity[r] == (match r case Memory => out.hostMemory case Cpu => out.hostCpus)
      && (a.caps.value != [] && Ratio(hv.overcommit, r) >= 0.0
          && (forall c | c in a.caps.value :: CellAmount(r)(c) >= 0) ==>
            var sum := Sum(out.cells, EffectiveIn(r));
            sum <= out.effectiveCapacity[r] <= sum + |out.cells| - 1)
  {
    FiveSteps(a, hv, trace, out);
    var mid := trace[5];
    CellFieldsKept(mid.cells, hv.overcommit, r);
    assert StepFault(4, a).None?;
    Conservation(a.capsAgain.value, a.all.value, trace[4], mid, r);
    if a.caps == a.capsAgain && DistinctIds(a.caps.value) {
      CapacityAddsUp(a.capsAgain.value, a.all.value, trace[4], mid, r);
      if a.caps.value != [] && Ratio(hv.overcommit, r) >= 0.0 && forall c | c in a.caps.value :: CellAmount(r)(c) >= 0 {
        EffectiveFloors(a.capsAgain.value, a.all.value, trace[4], mid, r);
      }
    }
  }

  // ----- the pipeline read off the answers ------------------------------------------

  lemma CapabilitiesFaultMeans(caps: Outcome<seq<TopologyCell>>)
    ensures caps.Failed? ==> CapabilitiesFault(caps) == Some(caps.fault)
    ensures caps.Ok? ==> (CapabilitiesFault(caps).None? <==>
      forall t | t in caps.value :: t.unit in {"KiB", "MiB", "GiB", "TiB"})
  {
    if caps.Ok? {
      FirstUnitFaultMeans(caps.value);
    }
  }

  /** The call fails at the first answer that is missing or refused, with that answer's fault. */
  lemma FaultFromAnswers(a: Answers)
    ensures var n := FailingStep(a, 0);
      && (a.active.Failed? ==> n == 1 && StepFault(n, a) == Some(a.active.fault))
      && (a.active.Ok? && a.inactive.Failed? ==> n == 1 && StepFault(n, a) == Some(a.inactive.fault))
      && (a.active.Ok? && a.inactive.Ok? ==>
            if CapabilitiesFault(a.caps).Some? then n == 2 && StepFault(n, a) == CapabilitiesFault(a.caps)
            else if a.domainCapabilities.Failed? then n == 3 && StepFault(n, a) == Some(a.domainCapabilities.fault)
            else if CapabilitiesFault(a.capsAgain).Some? then n == 4 && StepFault(n, a) == CapabilitiesFault(a.capsAgain)
            else if a.all.Failed? then n == 4 && StepFault(n, a) == Some(a.all.fault)
            else if FirstDomainFault(a.all.value, Ids(a.capsAgain.value)).Some? then
              n == 4 && StepFault(n, a) == FirstDomainFault(a.all.value, Ids(a.capsAgain.value))
            else n == STEPS)
  {
    var n := FailingStep(a, 0);
    assert StepFault(0, a).None? && StepFault(5, a).None?;
    forall k | 0 <= k < STEPS && StepFault(k, a).Some? ensures n <= k {
    }
  }

  /** The calls that succeed, in terms of the answers: all arrive, all units and cells are known, nothing is missing. */
  lemma SuccessFromAnswers(a: Answers)
    ensures Succeeds(a) <==>
      && a.active.Ok? && a.inactive.Ok? && a.caps.Ok? && a.domainCapabilities.Ok? && a.capsAgain.Ok? && a.all.Ok?
      && (forall t | t in a.caps.value + a.capsAgain.value :: t.unit in {"KiB", "MiB", "GiB", "TiB"})
      && (forall d | d in a.all.value ::
            && Complete(d) && d.memory.value.unit in {"KiB", "MiB", "GiB", "TiB"}
            && (forall id | id in d.memNodes.value :: exists t | t in a.capsAgain.value :: t.id == id)
            && (forall id | id in d.cpu.value.value :: exists t | t in a.capsAgain.value :: t.id == id))
  {
    CapabilitiesFaultMeans(a.caps);
    CapabilitiesFaultMeans(a.capsAgain);
    if a.capsAgain.Ok? && a.all.Ok? {
      NoFaultMeansAllFine(a.all.value, Ids(a.capsAgain.value));
      KnownIds(a.capsAgain.value);
      forall d | d in a.all.value
        ensures DomainFault(d, Ids(a.capsAgain.value)).None? <==>
          && Complete(d) && d.memory.value.unit in {"KiB", "MiB", "GiB", "TiB"}
          && (forall id | id in d.memNodes.value :: exists t | t in a.capsAgain.value :: t.id == id)
          && (forall id | id in d.cpu.value.value :: exists t | t in a.capsAgain.value :: t.id == id)
      {
        DomainFaultExactly(d, Ids(a.capsAgain.value));
      }
    }
  }

  lemma KnownIds(topology: seq<TopologyCell>)
    ensures forall id :: id in Ids(topology) <==> exists t | t in topology :: t.id == id
  {
    IdsHold(topology);
    forall id ensures id in Ids(topology) <==> exists t | t in topology :: t.id == id {
      if id in Ids(topology) {
        var i :| 0 <= i < |topology| && topology[i].id == id;
        assert topology[i] in topology;
      }
    }
  }

  /** A failed call has written what the steps before the failing one write, and nothing else. */
  lemma FailureFills(a: Answers, hv: Hypervisor, trace: seq<Hypervisor>, out: Hypervisor, n: nat)
    requires n == FailingStep(a, 0) < STEPS && Run(a, hv, trace, out, n)
    ensures n > 1 ==> InstancesListed(a, out)
    ensures out == hv.(
      libvirtVersion := a.version,
      hypervisorVersion := a.hypervisorVersion,
      instances := if n > 1 then out.instances else hv.instances,
      numInstances := if n > 1 then |out.instances| else hv.numInstances,
      hostCpuArch := if n > 2 then a.arch else hv.hostCpuArch,
      hostMemory := if n > 2 then Sum(a.caps.value, CellAmount(Memory)) else hv.hostMemory,
      hostCpus := if n > 2 then Sum(a.caps.value, CellAmount(Cpu)) else hv.hostCpus,
      domainCapabilities := if n > 3 then a.domainCapabilities.value else hv.domainCapabilities)
  {
    FailureLeaves(a, hv, trace, out, n);
    assert Does(0, a, trace[0], trace[1]);
    if n > 1 {
      assert Does(1, a, trace[1], trace[2]);
    }
    if n > 2 {
      assert Does(2, a, trace[2], trace[3]);
    }
    if n > 3 {
      assert Does(3, a, trace[3], trace[4]);
    }
  }

  /** Every active domain is listed as active, then every inactive one as inactive. */
  predicate InstancesListed(a: Answers, out: Hypervisor) {
    && a.active.Ok? && a.inactive.Ok?
    && |out.instances| == out.numInstances == |a.active.value| + |a.inactive.value|
    && (forall i | 0 <= i < |a.active.value| ::
          out.instances[i] == Instance(a.active.value[i].uuid, a.active.value[i].name, true))
    && (forall i | 0 <= i < |a.inactive.value| ::
          out.instances[|a.active.value| + i] == Instance(a.inactive.value[i].uuid, a.inactive.value[i].name, false))
  }

  /** The identity, the host and the capabilities after a successful call, read off the answers. */
  lemma StatusFromAnswers(
    a: Answers, hv: Hypervisor, trace: seq<Hypervisor>, out: Hypervisor, bytes: TopologyCell -> int, cpus: TopologyCell -> int)
    requires Succeeds(a) && Run(a, hv, trace, out, STEPS)
    requires forall t | t in a.caps.value :: bytes(t) == Units.Wrap64(t.memory * UnitSize(t.unit)) && cpus(t) == t.cpus
    ensures InstancesListed(a, out)
    ensures out.libvirtVersion == a.version && out.hypervisorVersion == a.hypervisorVersion && out.hostCpuArch == a.arch
    ensures out.hostMemory == Sum(a.caps.value, bytes) && out.hostCpus == Sum(a.caps.value, cpus)
    ensures out.domainCapabilities == a.domainCapabilities.value
    ensures out.overcommit == hv.overcommit && out.conditions == hv.conditions
  {
    FiveSteps(a, hv, trace, out);
    CellBytes(a.caps.value, bytes);
    SumPointwise(a.caps.value, CellAmount(Memory), a.caps.value, bytes);
    SumPointwise(a.caps.value, CellAmount(Cpu), a.caps.value, cpus);
  }

  /** The accounting after a successful call, read off the answers: see the four laws it is made of. */
  lemma AccountingFromAnswers(
    a: Answers, hv: Hypervisor, trace: seq<Hypervisor>, out: Hypervisor,
    pins: DomainInfo -> int, cpuShare: nat -> DomainInfo -> int,
    bytes: DomainInfo -> int, memShare: nat -> DomainInfo -> int)
    requires Succeeds(a) && Run(a, hv, trace, out, STEPS)
    requires forall d | d in a.all.value && Complete(d) :: pins(d) == d.vcpuPins.value
    requires forall d, id: nat | d in a.all.value && Complete(d) ::
      IsShare(cpuShare(id)(d), d.cpu.value.value, id, d.vcpuPins.value)
    requires forall d | d in a.all.value && Complete(d) ::
      bytes(d) == Units.Wrap64(d.memory.value.value * UnitSize(d.memory.value.unit))
    requires forall d, id: nat | d in a.all.value && Complete(d) ::
      IsShare(memShare(id)(d), d.memNodes.value, id, bytes(d))
    ensures out.allocation == map[Memory := Sum(a.all.value, bytes), Cpu := Sum(a.all.value, pins)]
    ensures forall c | c in out.cells ::
      c.allocation == map[Memory := Sum(a.all.value, memShare(c.id)), Cpu := Sum(a.all.value, cpuShare(c.id))]
    ensures forall r: ResourceName :: Rounded(out.capacity, hv.overcommit, out.effectiveCapacity, r)
    ensures forall c, r: ResourceName | c in out.cells :: Rounded(c.capacity, hv.overcommit, c.effective, r)
  {
    FiveSteps(a, hv, trace, out);
    var topology, doms, mid := a.capsAgain.value, a.all.value, trace[5];
    assert StepFault(4, a).None?;
    CpuFromDescriptions(topology, doms, trace[4], mid, pins, cpuShare);
    MemoryFromDescriptions(topology, doms, trace[4], mid, bytes, memShare);
    forall r: ResourceName ensures Rounded(out.capacity, hv.overcommit, out.effectiveCapacity, r) {
      ProductsRounded(mid, out, r);
    }
    forall c, r: ResourceName | c in out.cells ensures Rounded(c.capacity, hv.overcommit, c.effective, r) {
      ProductsRounded(mid, out, r);
    }
    forall c | c in out.cells
      ensures c.allocation == map[Memory := Sum(doms, memShare(c.id)), Cpu := Sum(doms, cpuShare(c.id))]
    {
      var i :| 0 <= i < |out.cells| && out.cells[i] == c;
      var m := mid.cells[i];
      assert m in mid.cells && c == m.(effective := c.effective);
      ReportedCell(topology, doms, mid.cells, m);
    }
  }
}
