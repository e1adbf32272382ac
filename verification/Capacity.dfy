/**
 NUMA capacity and allocation accounting (internal/libvirt/libvirt.go): what the host offers,
 what the domains on it take, and what remains after overcommit, in total and cell by cell.
 */
module Capacity {
  import opened Wrappers
  import opened Sums
  import Units

  // ----- answers of libvirt ---------------------------------------------------------

  datatype ResourceName = Memory | Cpu

  datatype TopologyCell = TopologyCell(id: nat, memory: int, unit: string, cpus: int)

  datatype MemoryAmount = MemoryAmount(value: int, unit: string)

  /** The parts of a domain description the accounting looks at; None is an absent XML element. */
  datatype DomainInfo = DomainInfo(
    uuid: string,
    name: string,
    memory: Option<MemoryAmount>,
    vcpuPins: Option<nat>,
    memNodes: Option<seq<nat>>,
    cpu: Option<Option<seq<nat>>>)

  /** What an operation can end in: a value, a returned error, or a nil dereference. */
  datatype Fault =
    | Unreachable(what: string)
    | UnknownUnit(unit: string)
    | MissingCpuTune(name: string)
    | UnknownMemoryCell(name: string, id: nat)
    | MissingCpuNuma(name: string)
    | UnknownCpuCell(name: string, id: nat)
    | NilDereference(element: string)

  datatype Outcome<+T> = Ok(value: T) | Failed(fault: Fault)

  // ----- the reported status --------------------------------------------------------

  type Amounts = map<ResourceName, int>

  datatype Cell = Cell(id: nat, allocation: Amounts, capacity: Amounts, effective: Amounts)

  datatype Instance = Instance(id: string, name: string, active: bool)

  datatype DomainCapabilities = DomainCapabilities(
    arch: string, hypervisorType: string, cpuModes: seq<string>, devices: seq<string>, features: seq<string>)

  datatype Hypervisor = Hypervisor(
    // the specification and the status fields that libvirt processing leaves alone
    overcommit: map<ResourceName, real>,
    conditions: seq<string>,
    // filled by libvirt processing
    libvirtVersion: string,
    hypervisorVersion: string,
    instances: seq<Instance>,
    numInstances: nat,
    hostCpuArch: string,
    hostMemory: int,
    hostCpus: int,
    domainCapabilities: DomainCapabilities,
    capacity: Amounts,
    allocation: Amounts,
    effectiveCapacity: Amounts,
    cells: seq<Cell>)

  // ----- reading one domain or cell -------------------------------------------------

  function InBytes(value: int, unit: string): Units.Quantity {
    Units.MemoryToResource(value, unit)
  }

  function CellMemory(c: TopologyCell): int {
    match InBytes(c.memory, c.unit) case Quantity(b) => b case UnknownUnit(_) => 0
  }

  function CellAmount(r: ResourceName): TopologyCell -> int {
    match r case Memory => (c: TopologyCell) => CellMemory(c) case Cpu => (c: TopologyCell) => c.cpus
  }

  /** How much of resource `r` the domain is given. */
  function Taken(r: ResourceName, d: DomainInfo): int {
    match r
    case Memory =>
      if d.memory.None? then 0 else
      (match InBytes(d.memory.value.value, d.memory.value.unit)
       case Quantity(b) => b case UnknownUnit(_) => 0)
    case Cpu => if d.vcpuPins.None? then 0 else d.vcpuPins.value
  }

  /** The cells, with repetition, that the domain takes resource `r` from. */
  function Places(r: ResourceName, d: DomainInfo): seq<nat> {
    match r
    case Memory => if d.memNodes.None? then [] else d.memNodes.value
    case Cpu => if d.cpu.None? || d.cpu.value.None? then [] else d.cpu.value.value
  }

  /** Go's integer division and remainder, which truncate toward zero. */
  function TruncDiv(a: int, n: int): int
    requires n > 0
  {
    if a >= 0 then a / n else -(-a / n)
  }

  function TruncRem(a: int, n: int): (r: int)
    requires n > 0
    ensures a == n * TruncDiv(a, n) + r
    ensures -n < r < n && (a >= 0 ==> 0 <= r)
  {
    a - n * TruncDiv(a, n)
  }

  // ----- the closed form ------------------------------------------------------------

  /** What domain `d` charges to cell `id`: an even share for every time it names the cell. */
  function Share(r: ResourceName, id: nat, d: DomainInfo): int {
    Repeated(Places(r, d), id, PerCell(Taken(r, d), |Places(r, d)|))
  }

  /** `each`, once for every time `ids` names `id`. */
  function Repeated(ids: seq<nat>, id: nat, each: int): int {
    if ids == [] then 0
    else Repeated(ids[..|ids| - 1], id, each) + if ids[|ids| - 1] == id then each else 0
  }

  function PerCell(amount: int, cells: nat): int {
    if cells == 0 then 0 else TruncDiv(amount, cells)
  }

  function TakenOf(r: ResourceName): DomainInfo -> int {
    (d: DomainInfo) => Taken(r, d)
  }

  function ShareOf(r: ResourceName, id: nat): DomainInfo -> int {
    (d: DomainInfo) => Share(r, id, d)
  }

  /** What even splitting of `d` leaves in no cell: the remainder, or everything when it names no cell. */
  function Lost(r: ResourceName, d: DomainInfo): int {
    var places := Places(r, d);
    if places == [] then Taken(r, d) else TruncRem(Taken(r, d), |places|)
  }

  function LostOf(r: ResourceName): DomainInfo -> int {
    (d: DomainInfo) => Lost(r, d)
  }

  function Ids(topology: seq<TopologyCell>): set<nat> {
    if topology == [] then {} else {topology[0].id} + Ids(topology[1..])
  }

  function BothAmounts(memory: int, cpu: int): Amounts {
    map[Memory := memory, Cpu := cpu]
  }

  /** The last topology cell with this id; later cells replace earlier ones. */
  function LastWithId(topology: seq<TopologyCell>, id: nat): TopologyCell
    requires id in Ids(topology)
  {
    if id in Ids(topology[1..]) then LastWithId(topology[1..], id) else topology[0]
  }

  function CellFor(topology: seq<TopologyCell>, doms: seq<DomainInfo>, id: nat): Cell
    requires id in Ids(topology)
  {
    var c := LastWithId(topology, id);
    Cell(id,
         BothAmounts(Sum(doms, ShareOf(Memory, id)), Sum(doms, ShareOf(Cpu, id))),
         BothAmounts(CellMemory(c), c.cpus),
         map[])
  }

  function CellsFor(topology: seq<TopologyCell>, doms: seq<DomainInfo>): set<Cell> {
    set id | id in Ids(topology) :: CellFor(topology, doms, id)
  }

  // ----- which inputs fail, and how -------------------------------------------------

  function FirstMissing(ids: seq<nat>, known: set<nat>): (m: Option<nat>)
    ensures m.None? <==> forall id | id in ids :: id in known
    ensures m.Some? ==> m.value in ids && m.value !in known
  {
    if ids == [] then None
    else if ids[0] !in known then Some(ids[0])
    else
      assert ids == [ids[0]] + ids[1..];
      FirstMissing(ids[1..], known)
  }

  /** The first check this domain fails, in the order the checks are made. */
  function DomainFault(d: DomainInfo, known: set<nat>): Option<Fault> {
    if d.memory.None? then Some(NilDereference("memory"))
    else if InBytes(d.memory.value.value, d.memory.value.unit).UnknownUnit? then Some(UnknownUnit(d.memory.value.unit))
    else if d.vcpuPins.None? then Some(MissingCpuTune(d.name))
    else if d.memNodes.None? then Some(NilDereference("numatune"))
    else if FirstMissing(d.memNodes.value, known).Some? then
      Some(UnknownMemoryCell(d.name, FirstMissing(d.memNodes.value, known).value))
    else if d.cpu.None? then Some(NilDereference("cpu"))
    else if d.cpu.value.None? then Some(MissingCpuNuma(d.name))
    else if FirstMissing(d.cpu.value.value, known).Some? then
      Some(UnknownCpuCell(d.name, FirstMissing(d.cpu.value.value, known).value))
    else None
  }

  function FirstDomainFault(doms: seq<DomainInfo>, known: set<nat>): Option<Fault> {
    if doms == [] then None
    else
      var before := FirstDomainFault(doms[..|doms| - 1], known);
      if before.Some? then before else DomainFault(doms[|doms| - 1], known)
  }

  function FirstUnitFault(topology: seq<TopologyCell>): Option<Fault> {
    if topology == [] then None
    else
      var before := FirstUnitFault(topology[..|topology| - 1]);
      var last := topology[|topology| - 1];
      if before.Some? then before
      else if InBytes(last.memory, last.unit).UnknownUnit? then Some(UnknownUnit(last.unit)) else None
  }

  function CapabilitiesFault(caps: Outcome<seq<TopologyCell>>): Option<Fault> {
    if caps.Failed? then Some(caps.fault) else FirstUnitFault(caps.value)
  }

  function AllocationFault(caps: Outcome<seq<TopologyCell>>, infos: Outcome<seq<DomainInfo>>): Option<Fault> {
    if CapabilitiesFault(caps).Some? then CapabilitiesFault(caps)
    else if infos.Failed? then Some(infos.fault)
    else FirstDomainFault(infos.value, Ids(caps.value))
  }

  /** `hv` is `old` with the totals and the cells of this topology and these domains; the cell order is free. */
  ghost predicate Accounted(topology: seq<TopologyCell>, doms: seq<DomainInfo>, prior: Hypervisor, hv: Hypervisor) {
    && hv == prior.(
         capacity := BothAmounts(Sum(topology, CellAmount(Memory)), Sum(topology, CellAmount(Cpu))),
         allocation := BothAmounts(Sum(doms, TakenOf(Memory)), Sum(doms, TakenOf(Cpu))),
         cells := hv.cells)
    && multiset(hv.cells) == multiset(CellsFor(topology, doms))
  }

  // ----- addCapabilities ------------------------------------------------------------

  method AddCapabilities(
    caps: Outcome<seq<TopologyCell>>, arch: string, hv: Hypervisor) returns (r: Outcome<Hypervisor>)
    ensures CapabilitiesFault(caps).Some? ==> r == Failed(CapabilitiesFault(caps).value)
    ensures CapabilitiesFault(caps).None? ==> r == Ok(hv.(
      hostCpuArch := arch,
      hostMemory := Sum(caps.value, CellAmount(Memory)),
      hostCpus := Sum(caps.value, CellAmount(Cpu))))
  {
    if caps.Failed? {
      return Failed(caps.fault);
    }
    var cells := caps.value;
    var totalMemory, totalCpus := 0, 0;
    for i := 0 to |cells|
      invariant FirstUnitFault(cells[..i]).None?
      invariant totalMemory == Sum(cells[..i], CellAmount(Memory))
      invariant totalCpus == Sum(cells[..i], CellAmount(Cpu))
    {
      assert cells[..i + 1][..i] == cells[..i];
      var mem := InBytes(cells[i].memory, cells[i].unit);
      if mem.UnknownUnit? {
        FirstUnitFaultStays(cells, i + 1);
        return Failed(UnknownUnit(cells[i].unit));
      }
      totalMemory := totalMemory + mem.bytes;
      totalCpus := totalCpus + cells[i].cpus;
    }
    assert cells[..|cells|] == cells;
    r := Ok(hv.(hostCpuArch := arch, hostMemory := totalMemory, hostCpus := totalCpus));
  }

  lemma {:induction false} FirstUnitFaultStays(cells: seq<TopologyCell>, n: nat)
    requires n <= |cells| && FirstUnitFault(cells[..n]).Some?
    ensures FirstUnitFault(cells) == FirstUnitFault(cells[..n])
    decreases |cells| - n
  {
    if n == |cells| {
      assert cells[..n] == cells;
    } else {
      assert cells[..n + 1][..n] == cells[..n];
      FirstUnitFaultStays(cells, n + 1);
    }
  }

  lemma {:induction false} FirstDomainFaultStays(doms: seq<DomainInfo>, known: set<nat>, n: nat)
    requires n <= |doms| && FirstDomainFault(doms[..n], known).Some?
    ensures FirstDomainFault(doms, known) == FirstDomainFault(doms[..n], known)
    decreases |doms| - n
  {
    if n == |doms| {
      assert doms[..n] == doms;
    } else {
      assert doms[..n + 1][..n] == doms[..n];
      FirstDomainFaultStays(doms, known, n + 1);
    }
  }

  // ----- addAllocationCapacity ------------------------------------------------------

  function AddTo(c: Cell, r: ResourceName, amount: int): Cell
    requires r in c.allocation
  {
    c.(allocation := c.allocation[r := c.allocation[r] + amount])
  }

  /** `out` is `cells` with `each` added to a cell for every time `ids` names it. */
  ghost predicate Charged(cells: map<nat, Cell>, r: ResourceName, ids: seq<nat>, each: int, out: map<nat, Cell>)
    requires forall id | id in cells :: r in cells[id].allocation
  {
    && out.Keys == cells.Keys
    && forall id | id in cells :: out[id] == AddTo(cells[id], r, Repeated(ids, id, each))
  }

  lemma {:induction false} MissingAfter(ids: seq<nat>, known: set<nat>, i: nat)
    requires i < |ids| && forall k | 0 <= k < i :: ids[k] in known
    ensures ids[i] !in known ==> FirstMissing(ids, known) == Some(ids[i])
  {
    if i > 0 {
      MissingAfter(ids[1..], known, i - 1);
    }
  }

  lemma ChargeOneMore(cells: map<nat, Cell>, r: ResourceName, ids: seq<nat>, each: int, mid: map<nat, Cell>, i: nat)
    requires forall id | id in cells :: r in cells[id].allocation
    requires i < |ids| && ids[i] in cells && Charged(cells, r, ids[..i], each, mid)
    ensures r in mid[ids[i]].allocation
    ensures Charged(cells, r, ids[..i + 1], each, mid[ids[i] := AddTo(mid[ids[i]], r, each)])
  {
    var out := mid[ids[i] := AddTo(mid[ids[i]], r, each)];
    assert ids[..i + 1][..i] == ids[..i];
    forall id | id in cells ensures out[id] == AddTo(cells[id], r, Repeated(ids[..i + 1], id, each)) {
      assert mid[id] == AddTo(cells[id], r, Repeated(ids[..i], id, each));
    }
  }

  /** One of the two inner loops: adds `perCell` to each cell a domain names, stopping at an unknown one. */
  method ChargeCells(cellsById: map<nat, Cell>, r: ResourceName, ids: seq<nat>, perCell: int)
    returns (out: map<nat, Cell>, unknown: Option<nat>)
    requires forall id | id in cellsById :: r in cellsById[id].allocation
    ensures unknown == FirstMissing(ids, cellsById.Keys)
    ensures unknown.None? ==> Charged(cellsById, r, ids, perCell, out)
  {
    out := cellsById;
    for i := 0 to |ids|
      invariant forall k | 0 <= k < i :: ids[k] in cellsById
      invariant Charged(cellsById, r, ids[..i], perCell, out)
    {
      var id := ids[i];
      if id !in out {
        MissingAfter(ids, cellsById.Keys, i);
        return out, Some(id);
      }
      ChargeOneMore(cellsById, r, ids, perCell, out, i);
      out := out[id := AddTo(out[id], r, perCell)];
    }
    assert ids[..|ids|] == ids;
    unknown := None;
  }

  /** The map of cells after the topology has been read and the first domains have been charged. */
  ghost predicate Holds(topology: seq<TopologyCell>, doms: seq<DomainInfo>, cellsById: map<nat, Cell>) {
    && cellsById.Keys == Ids(topology)
    && forall id | id in Ids(topology) :: cellsById[id] == CellFor(topology, doms, id)
  }

  lemma {:induction false} IdsAppend(topology: seq<TopologyCell>, c: TopologyCell)
    ensures Ids(topology + [c]) == Ids(topology) + {c.id}
  {
    if topology != [] {
      assert (topology + [c])[1..] == topology[1..] + [c];
      IdsAppend(topology[1..], c);
    }
  }

  lemma {:induction false} LastAppended(topology: seq<TopologyCell>, c: TopologyCell, id: nat)
    requires id in Ids(topology + [c])
    ensures id != c.id ==> id in Ids(topology)
    ensures LastWithId(topology + [c], id) == if id == c.id then c else LastWithId(topology, id)
  {
    IdsAppend(topology, c);
    if topology != [] {
      assert (topology + [c])[1..] == topology[1..] + [c];
      IdsAppend(topology[1..], c);
      if id in Ids(topology[1..] + [c]) {
        LastAppended(topology[1..], c, id);
      }
    }
  }

  lemma TopologyStep(topology: seq<TopologyCell>, cellsById: map<nat, Cell>, c: TopologyCell)
    requires Holds(topology, [], cellsById)
    ensures Holds(topology + [c], [], cellsById[c.id := Cell(c.id, BothAmounts(0, 0), BothAmounts(CellMemory(c), c.cpus), map[])])
  {
    var more := topology + [c];
    IdsAppend(topology, c);
    forall id | id in Ids(more)
      ensures id != c.id ==> id in Ids(topology) && LastWithId(more, id) == LastWithId(topology, id)
      ensures id == c.id ==> LastWithId(more, id) == c
    {
      LastAppended(topology, c, id);
    }
  }

  lemma ShareStep(r: ResourceName, id: nat, doms: seq<DomainInfo>, d: DomainInfo)
    ensures Sum(doms + [d], ShareOf(r, id)) == Sum(doms, ShareOf(r, id)) + Share(r, id, d)
  {
    assert (doms + [d])[..|doms|] == doms;
  }

  lemma DomainStep(
    topology: seq<TopologyCell>, doms: seq<DomainInfo>, d: DomainInfo,
    before: map<nat, Cell>, mid: map<nat, Cell>, after: map<nat, Cell>)
    requires Holds(topology, doms, before)
    requires ChargedFor(before, Memory, d, mid)
    requires ChargedFor(mid, Cpu, d, after)
    ensures Holds(topology, doms + [d], after)
  {
    forall id | id in Ids(topology) ensures after[id] == CellFor(topology, doms + [d], id) {
      CellStep(topology, doms, d, id, Share(Memory, id, d), Share(Cpu, id, d));
      assert before[id] == CellFor(topology, doms, id);
      assert mid[id] == AddTo(before[id], Memory, Share(Memory, id, d));
    }
  }

  lemma CellStep(topology: seq<TopologyCell>, doms: seq<DomainInfo>, d: DomainInfo, id: nat, memory: int, cpu: int)
    requires id in Ids(topology)
    requires memory == Share(Memory, id, d) && cpu == Share(Cpu, id, d)
    ensures AddTo(AddTo(CellFor(topology, doms, id), Memory, memory), Cpu, cpu) == CellFor(topology, doms + [d], id)
  {
    ShareStep(Memory, id, doms, d);
    ShareStep(Cpu, id, doms, d);
    BothUpdated(Sum(doms, ShareOf(Memory, id)), Sum(doms, ShareOf(Cpu, id)), memory, cpu);
  }

  lemma BothUpdated(m: int, c: int, memory: int, cpu: int)
    ensures BothAmounts(m, c)[Memory := m + memory][Cpu := c + cpu] == BothAmounts(m + memory, c + cpu)
  {
  }

  /** `out` is `cells` with the domain's share of `r` added to every cell. */
  ghost predicate ChargedFor(cells: map<nat, Cell>, r: ResourceName, d: DomainInfo, out: map<nat, Cell>) {
    && out.Keys == cells.Keys
    && forall id | id in cells :: r in cells[id].allocation && out[id] == AddTo(cells[id], r, Share(r, id, d))
  }

  /** Reads the topology: totals, and a map of cells in which a repeated id is replaced. */
  method ReadTopology(topology: seq<TopologyCell>)
    returns (memory: int, cpus: int, cellsById: map<nat, Cell>, fault: Option<Fault>)
    ensures fault == FirstUnitFault(topology)
    ensures fault.None? ==>
      && memory == Sum(topology, CellAmount(Memory))
      && cpus == Sum(topology, CellAmount(Cpu))
      && Holds(topology, [], cellsById)
  {
    memory, cpus, cellsById := 0, 0, map[];
    for i := 0 to |topology|
      invariant FirstUnitFault(topology[..i]).None?
      invariant memory == Sum(topology[..i], CellAmount(Memory))
      invariant cpus == Sum(topology[..i], CellAmount(Cpu))
      invariant Holds(topology[..i], [], cellsById)
    {
      var c := topology[i];
      assert topology[..i + 1][..i] == topology[..i];
      assert topology[..i + 1] == topology[..i] + [c];
      var mem := InBytes(c.memory, c.unit);
      if mem.UnknownUnit? {
        FirstUnitFaultStays(topology, i + 1);
        return memory, cpus, cellsById, Some(UnknownUnit(c.unit));
      }
      memory := memory + mem.bytes;
      cpus := cpus + c.cpus;
      TopologyStep(topology[..i], cellsById, c);
      cellsById := cellsById[c.id := Cell(c.id, BothAmounts(0, 0), BothAmounts(mem.bytes, c.cpus), map[])];
    }
    assert topology[..|topology|] == topology;
    fault := None;
  }

  /** Charges one domain to the cells it names, with the checks in the order the source makes them. */
  method ChargeDomain(
    ghost topology: seq<TopologyCell>, ghost doms: seq<DomainInfo>, d: DomainInfo, cellsById: map<nat, Cell>)
    returns (out: map<nat, Cell>, fault: Option<Fault>)
    requires Holds(topology, doms, cellsById)
    ensures fault == DomainFault(d, Ids(topology))
    ensures fault.None? ==> Holds(topology, doms + [d], out)
  {
    out := cellsById;
    if d.memory.None? {
      return out, Some(NilDereference("memory"));
    }
    var mem := InBytes(d.memory.value.value, d.memory.value.unit);
    if mem.UnknownUnit? {
      return out, Some(UnknownUnit(d.memory.value.unit));
    }
    if d.vcpuPins.None? {
      return out, Some(MissingCpuTune(d.name));
    }
    if d.memNodes.None? {
      return out, Some(NilDereference("numatune"));
    }
    var mid, unknown := ChargeCells(cellsById, Memory, d.memNodes.value, PerCell(mem.bytes, |d.memNodes.value|));
    if unknown.Some? {
      return out, Some(UnknownMemoryCell(d.name, unknown.value));
    }
    if d.cpu.None? {
      return out, Some(NilDereference("cpu"));
    }
    if d.cpu.value.None? {
      return out, Some(MissingCpuNuma(d.name));
    }
    out, unknown := ChargeCells(mid, Cpu, d.cpu.value.value, PerCell(d.vcpuPins.value, |d.cpu.value.value|));
    if unknown.Some? {
      return out, Some(UnknownCpuCell(d.name, unknown.value));
    }
    assert ChargedFor(cellsById, Memory, d, mid) && ChargedFor(mid, Cpu, d, out);
    DomainStep(topology, doms, d, cellsById, mid, out);
    fault := None;
  }

  /** Ranges over the map of cells, whose iteration order is unspecified. */
  method CellSlice(ghost topology: seq<TopologyCell>, ghost doms: seq<DomainInfo>, cellsById: map<nat, Cell>)
    returns (cells: seq<Cell>)
    requires Holds(topology, doms, cellsById)
    ensures multiset(cells) == multiset(CellsFor(topology, doms))
  {
    cells := [];
    var remaining := cellsById.Keys;
    while remaining != {}
      invariant remaining <= cellsById.Keys
      invariant NoDuplicates(cells)
      invariant forall c :: c in cells <==> c.id in cellsById && c.id !in remaining && c == cellsById[c.id]
      decreases |remaining|
    {
      var id :| id in remaining;
      assert cellsById[id].id == id;
      cells := cells + [cellsById[id]];
      remaining := remaining - {id};
    }
    DistinctMultiset(cells);
    assert (set c | c in cells) == CellsFor(topology, doms) by {
      forall c ensures c in cells <==> c in CellsFor(topology, doms) {
        if c in cells {
          assert c.id in Ids(topology) && c == CellFor(topology, doms, c.id);
        }
      }
    }
  }

  /** The loop over the domains: totals, and every domain charged to its cells. */
  method ChargeDomains(ghost topology: seq<TopologyCell>, doms: seq<DomainInfo>, blank: map<nat, Cell>)
    returns (memory: int, cpus: int, cellsById: map<nat, Cell>, fault: Option<Fault>)
    requires Holds(topology, [], blank)
    ensures fault == FirstDomainFault(doms, Ids(topology))
    ensures fault.None? ==>
      && memory == Sum(doms, TakenOf(Memory))
      && cpus == Sum(doms, TakenOf(Cpu))
      && Holds(topology, doms, cellsById)
  {
    memory, cpus, cellsById := 0, 0, blank;
    for i := 0 to |doms|
      invariant FirstDomainFault(doms[..i], Ids(topology)).None?
      invariant memory == Sum(doms[..i], TakenOf(Memory))
      invariant cpus == Sum(doms[..i], TakenOf(Cpu))
      invariant Holds(topology, doms[..i], cellsById)
    {
      assert doms[..i + 1][..i] == doms[..i];
      assert doms[..i + 1] == doms[..i] + [doms[i]];
      cellsById, fault := ChargeDomain(topology, doms[..i], doms[i], cellsById);
      if fault.Some? {
        FirstDomainFaultStays(doms, Ids(topology), i + 1);
        return;
      }
      memory := memory + Taken(Memory, doms[i]);
      cpus := cpus + Taken(Cpu, doms[i]);
    }
    assert doms[..|doms|] == doms;
    fault := None;
  }

  /**
   Totals and cells from one topology answer and one list of domains. It fails exactly when some
   check fails, with the first fault; otherwise the result is the closed form, up to cell order.
   */
  method AddAllocationCapacity(caps: Outcome<seq<TopologyCell>>, infos: Outcome<seq<DomainInfo>>, hv: Hypervisor)
    returns (r: Outcome<Hypervisor>)
    ensures AllocationFault(caps, infos).Some? ==> r == Failed(AllocationFault(caps, infos).value)
    ensures AllocationFault(caps, infos).None? ==> r.Ok? && Accounted(caps.value, infos.value, hv, r.value)
  {
    if caps.Failed? {
      return Failed(caps.fault);
    }
    var memCapacity, cpuCapacity, cellsById, fault := ReadTopology(caps.value);
    if fault.Some? {
      return Failed(fault.value);
    }
    if infos.Failed? {
      return Failed(infos.fault);
    }
    var memAlloc, cpuAlloc;
    memAlloc, cpuAlloc, cellsById, fault := ChargeDomains(caps.value, infos.value, cellsById);
    if fault.Some? {
      return Failed(fault.value);
    }
    var cells := CellSlice(caps.value, infos.value, cellsById);
    r := Ok(hv.(
      capacity := BothAmounts(memCapacity, cpuCapacity),
      allocation := BothAmounts(memAlloc, cpuAlloc),
      cells := cells));
  }

  // ----- addEffectiveCapacity -------------------------------------------------------

  /** Conversion of a floating-point value to an integer, which truncates toward zero. */
  function Trunc(x: real): int {
    if x >= 0.0 then x.Floor else -(-x).Floor
  }

  function Ratio(overcommit: map<ResourceName, real>, r: ResourceName): real {
    if r in overcommit then overcommit[r] else 1.0
  }

  function Scale(amount: int, ratio: real): int {
    Trunc(amount as real * ratio)
  }

  function Effective(capacity: Amounts, overcommit: map<ResourceName, real>): Amounts {
    map r | r in capacity :: Scale(capacity[r], Ratio(overcommit, r))
  }

  function WithEffectiveCapacity(hv: Hypervisor): Hypervisor {
    hv.(effectiveCapacity := Effective(hv.capacity, hv.overcommit),
        cells := Map(hv.cells, Rescaled(hv.overcommit)))
  }

  function Rescaled(overcommit: map<ResourceName, real>): Cell -> Cell {
    (c: Cell) => c.(effective := Effective(c.capacity, overcommit))
  }

  /** Ranges over a capacity map in any order, building the effective map afresh. */
  method EffectiveAmounts(capacity: Amounts, overcommit: map<ResourceName, real>) returns (out: Amounts)
    ensures out == Effective(capacity, overcommit)
  {
    out := map[];
    var remaining := capacity.Keys;
    while remaining != {}
      invariant remaining <= capacity.Keys
      invariant out.Keys == capacity.Keys - remaining
      invariant forall r | r in out :: out[r] == Scale(capacity[r], Ratio(overcommit, r))
      decreases |remaining|
    {
      var r :| r in remaining;
      var ratio := if r in overcommit then overcommit[r] else 1.0;
      out := out[r := Scale(capacity[r], ratio)];
      remaining := remaining - {r};
    }
  }

  /** Overcommit applied to the totals and to every cell; nothing of earlier effective capacities survives. */
  method AddEffectiveCapacity(hv: Hypervisor) returns (out: Hypervisor)
    ensures out == WithEffectiveCapacity(hv)
  {
    var total := EffectiveAmounts(hv.capacity, hv.overcommit);
    var cells := hv.cells;
    for i := 0 to |cells|
      invariant |cells| == |hv.cells|
      invariant forall k | 0 <= k < i :: cells[k] == WithEffectiveCapacity(hv).cells[k]
      invariant forall k | i <= k < |cells| :: cells[k] == hv.cells[k]
    {
      var effective := EffectiveAmounts(cells[i].capacity, hv.overcommit);
      cells := cells[i := cells[i].(effective := effective)];
    }
    out := hv.(effectiveCapacity := total, cells := cells);
  }
}
