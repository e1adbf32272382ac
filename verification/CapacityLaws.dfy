/**
 What the accounting promises about every topology and every list of domains: nothing is
 counted twice, nothing is lost but remainders, and no order matters.
 */
module CapacityLaws {
  import opened Wrappers
  import opened Sums
  import opened Capacity
  import Units

  function AllocIn(r: ResourceName): Cell -> int {
    (c: Cell) => if r in c.allocation then c.allocation[r] else 0
  }

  function CapacityIn(r: ResourceName): Cell -> int {
    (c: Cell) => if r in c.capacity then c.capacity[r] else 0
  }

  function EffectiveIn(r: ResourceName): Cell -> int {
    (c: Cell) => if r in c.effective then c.effective[r] else 0
  }

  // ----- the surviving cells --------------------------------------------------------

  predicate DistinctIds(topology: seq<TopologyCell>) {
    forall i, j | 0 <= i < j < |topology| :: topology[i].id != topology[j].id
  }

  lemma {:induction false} IdsHold(topology: seq<TopologyCell>)
    ensures forall i | 0 <= i < |topology| :: topology[i].id in Ids(topology)
    ensures forall id | id in Ids(topology) :: exists i | 0 <= i < |topology| :: topology[i].id == id
  {
    if topology != [] {
      var rest := topology[1..];
      IdsHold(rest);
      forall i | 0 <= i < |topology| ensures topology[i].id in Ids(topology) {
        assert i > 0 ==> topology[i] == rest[i - 1];
      }
      forall id | id in Ids(topology) ensures exists i | 0 <= i < |topology| :: topology[i].id == id {
        if id != topology[0].id {
          var i :| 0 <= i < |rest| && rest[i].id == id;
          assert topology[i + 1].id == id;
        }
      }
    }
  }

  /** The topology cells that no later cell with the same id replaces. */
  function Surviving(topology: seq<TopologyCell>): seq<TopologyCell> {
    if topology == [] then []
    else if topology[0].id in Ids(topology[1..]) then Surviving(topology[1..])
    else [topology[0]] + Surviving(topology[1..])
  }

  lemma {:induction false} SurvivingIds(topology: seq<TopologyCell>)
    ensures Ids(Surviving(topology)) == Ids(topology)
    ensures DistinctIds(Surviving(topology))
  {
    if topology != [] {
      SurvivingIds(topology[1..]);
      DistinctCons(topology[0], Surviving(topology[1..]));
      assert ([topology[0]] + Surviving(topology[1..]))[1..] == Surviving(topology[1..]);
    }
  }

  lemma {:induction false} SurvivorIsLast(topology: seq<TopologyCell>, c: TopologyCell)
    requires c in Surviving(topology)
    ensures c.id in Ids(topology) && LastWithId(topology, c.id) == c
  {
    if c in Surviving(topology[1..]) {
      SurvivorIsLast(topology[1..], c);
    }
  }

  function CellsOf(topology: seq<TopologyCell>, doms: seq<DomainInfo>, s: seq<TopologyCell>): seq<Cell>
    requires forall i | 0 <= i < |s| :: s[i].id in Ids(topology)
  {
    seq(|s|, i requires 0 <= i < |s| => CellFor(topology, doms, s[i].id))
  }

  function SurvivingCells(topology: seq<TopologyCell>, doms: seq<DomainInfo>): seq<Cell> {
    SurvivingIds(topology);
    IdsHold(Surviving(topology));
    CellsOf(topology, doms, Surviving(topology))
  }

  lemma SurvivingCellsDistinct(topology: seq<TopologyCell>, doms: seq<DomainInfo>)
    ensures NoDuplicates(SurvivingCells(topology, doms))
  {
    var s, cells := Surviving(topology), SurvivingCells(topology, doms);
    SurvivingIds(topology);
    forall i, j | 0 <= i < j < |cells| ensures cells[i] != cells[j] {
      assert cells[i].id == s[i].id && cells[j].id == s[j].id;
    }
  }

  lemma SurvivingCellsCover(topology: seq<TopologyCell>, doms: seq<DomainInfo>, c: Cell)
    ensures c in SurvivingCells(topology, doms) <==> c in CellsFor(topology, doms)
  {
    var s, cells := Surviving(topology), SurvivingCells(topology, doms);
    SurvivingIds(topology);
    IdsHold(s);
    if c in cells {
      var i :| 0 <= i < |cells| && cells[i] == c;
      assert s[i].id in Ids(topology);
    }
    if c in CellsFor(topology, doms) {
      var id :| id in Ids(topology) && c == CellFor(topology, doms, id);
      var i :| 0 <= i < |s| && s[i].id == id;
      assert cells[i] == c;
    }
  }

  /** Whatever order the cell map was ranged over, the reported cells are the surviving ones, once each. */
  lemma CellsAreSurvivors(topology: seq<TopologyCell>, doms: seq<DomainInfo>)
    ensures multiset(CellsFor(topology, doms)) == multiset(SurvivingCells(topology, doms))
  {
    var cells := SurvivingCells(topology, doms);
    SurvivingCellsDistinct(topology, doms);
    DistinctMultiset(cells);
    assert (set c | c in cells) == CellsFor(topology, doms) by {
      forall c ensures c in cells <==> c in CellsFor(topology, doms) {
        SurvivingCellsCover(topology, doms, c);
      }
    }
  }

  lemma {:induction false} SumPointwise<T, U>(s: seq<T>, f: T -> int, t: seq<U>, g: U -> int)
    requires |s| == |t| && forall i | 0 <= i < |s| :: f(s[i]) == g(t[i])
    ensures Sum(s, f) == Sum(t, g)
  {
    if s != [] {
      SumPointwise(s[..|s| - 1], f, t[..|t| - 1], g);
    }
  }

  // ----- conservation ---------------------------------------------------------------

  lemma {:induction false} NoFaultMeansAllFine(doms: seq<DomainInfo>, known: set<nat>)
    ensures FirstDomainFault(doms, known).None? <==> forall d | d in doms :: DomainFault(d, known).None?
  {
    if doms != [] {
      var last, rest := doms[|doms| - 1], doms[..|doms| - 1];
      assert doms == rest + [last];
      NoFaultMeansAllFine(rest, known);
    }
  }

  lemma {:induction false} RepeatedIsProduct(ids: seq<nat>, id: nat, each: int)
    ensures Repeated(ids, id, each) == Count(ids, id) * each
  {
    if ids != [] {
      RepeatedIsProduct(ids[..|ids| - 1], id, each);
    }
  }

  /** One domain: the shares over all cells and the loss make up what it takes. */
  lemma DomainConserved(keys: seq<nat>, d: DomainInfo, r: ResourceName, share: nat -> int)
    requires NoDuplicates(keys)
    requires forall id | id in Places(r, d) :: id in keys
    requires forall id: nat :: share(id) == Share(r, id, d)
    ensures Sum(keys, share) + Lost(r, d) == Taken(r, d)
  {
    var places := Places(r, d);
    var count := (id: nat) => Count(places, id) as int;
    var each := PerCell(Taken(r, d), |places|);
    CountsCover(keys, places, count);
    forall id: nat ensures share(id) == count(id) * each {
      RepeatedIsProduct(places, id, each);
    }
    SumScaled(keys, count, share, each);
    assert places == [] ==> Lost(r, d) == Taken(r, d);
  }

  lemma {:induction false} AllConserved(keys: seq<nat>, doms: seq<DomainInfo>, r: ResourceName, total: nat -> int)
    requires NoDuplicates(keys)
    requires forall d | d in doms :: forall id | id in Places(r, d) :: id in keys
    requires forall id: nat :: total(id) == Sum(doms, ShareOf(r, id))
    ensures Sum(keys, total) + Sum(doms, LostOf(r)) == Sum(doms, TakenOf(r))
  {
    if doms == [] {
      SumScaled(keys, total, total, 0);
    } else {
      var last, rest := doms[|doms| - 1], doms[..|doms| - 1];
      assert doms == rest + [last];
      var before := (id: nat) => Sum(rest, ShareOf(r, id));
      var here := (id: nat) => Share(r, id, last);
      forall id: nat ensures total(id) == before(id) + here(id) {
      }
      AllConserved(keys, rest, r, before);
      DomainConserved(keys, last, r, here);
      SumAdd(keys, before, here, total);
    }
  }

  function Keys(s: seq<TopologyCell>): (keys: seq<nat>)
    ensures |keys| == |s|
    ensures forall id | id in Ids(s) :: id in keys
    ensures forall i | 0 <= i < |s| :: keys[i] == s[i].id
    ensures DistinctIds(s) ==> NoDuplicates(keys)
  {
    var keys: seq<nat> := seq(|s|, i requires 0 <= i < |s| => s[i].id);
    IdsHold(s);
    assert forall i | 0 <= i < |s| :: s[i].id == keys[i] && keys[i] in keys;
    keys
  }

  lemma FinePlaces(d: DomainInfo, known: set<nat>, r: ResourceName)
    requires DomainFault(d, known).None?
    ensures forall id | id in Places(r, d) :: id in known
  {
  }

  lemma PlacesCovered(topology: seq<TopologyCell>, doms: seq<DomainInfo>, r: ResourceName)
    requires FirstDomainFault(doms, Ids(topology)).None?
    ensures forall d | d in doms :: forall id | id in Places(r, d) :: id in Keys(Surviving(topology))
  {
    NoFaultMeansAllFine(doms, Ids(topology));
    SurvivingIds(topology);
    forall d | d in doms ensures forall id | id in Places(r, d) :: id in Keys(Surviving(topology)) {
      FinePlaces(d, Ids(topology), r);
    }
  }

  lemma CellAllocations(
    topology: seq<TopologyCell>, doms: seq<DomainInfo>, listed: seq<Cell>, r: ResourceName, total: nat -> int)
    requires multiset(listed) == multiset(CellsFor(topology, doms))
    requires forall id: nat :: total(id) == Sum(doms, ShareOf(r, id))
    ensures Sum(listed, AllocIn(r)) == Sum(Keys(Surviving(topology)), total)
  {
    CellsAreSurvivors(topology, doms);
    SumPermutation(listed, SurvivingCells(topology, doms), AllocIn(r));
    SumPointwise(SurvivingCells(topology, doms), AllocIn(r), Keys(Surviving(topology)), total);
  }

  /**
   Allocation conservation, for every topology, every list of domains and both resources: the
   total exceeds the sum over the cells by exactly the remainders of the even splits, and by the
   whole amount of every domain that names no cell.
   */
  lemma Conservation(
    topology: seq<TopologyCell>, doms: seq<DomainInfo>, prior: Hypervisor, hv: Hypervisor, r: ResourceName)
    requires AllocationFault(Ok(topology), Ok(doms)).None?
    requires Accounted(topology, doms, prior, hv)
    ensures hv.allocation[r] == Sum(hv.cells, AllocIn(r)) + Sum(doms, LostOf(r))
  {
    var keys := Keys(Surviving(topology));
    var total := (id: nat) => Sum(doms, ShareOf(r, id));
    CellAllocations(topology, doms, hv.cells, r, total);
    PlacesCovered(topology, doms, r);
    SurvivingIds(topology);
    AllConserved(keys, doms, r, total);
  }

  /**
   With non-negative amounts the cells never exceed the total, and a placed domain loses less than one unit
   a cell.
   */
  lemma CellsWithinTotal(
    topology: seq<TopologyCell>, doms: seq<DomainInfo>, prior: Hypervisor, hv: Hypervisor, r: ResourceName)
    requires AllocationFault(Ok(topology), Ok(doms)).None?
    requires Accounted(topology, doms, prior, hv)
    requires forall d | d in doms :: Taken(r, d) >= 0
    ensures Sum(hv.cells, AllocIn(r)) <= hv.allocation[r]
    ensures forall d | d in doms && Places(r, d) != [] :: 0 <= Lost(r, d) < |Places(r, d)|
    ensures (forall d | d in doms :: Places(r, d) != []) ==>
      hv.allocation[r] - Sum(hv.cells, AllocIn(r)) <= Sum(doms, PlacesOf(r)) - |doms|
  {
    Conservation(topology, doms, prior, hv, r);
    SumMonotone(doms, (d: DomainInfo) => 0, LostOf(r));
    SumConst(doms, 0, (d: DomainInfo) => 0);
    if forall d | d in doms :: Places(r, d) != [] {
      var slack := (d: DomainInfo) => |Places(r, d)| - 1;
      var minus := (d: DomainInfo) => -1;
      SumMonotone(doms, LostOf(r), slack);
      SumAdd(doms, PlacesOf(r), minus, slack);
      SumConst(doms, -1, minus);
    }
  }

  /** A domain takes exactly what its description says, if that many bytes fit 64 bits; pinned CPUs always fit. */
  lemma TakenIsExact(d: DomainInfo)
    requires d.memory.Some? && Units.UnitExponent(d.memory.value.unit) > 0
    ensures var bytes := d.memory.value.value * Units.Pow1024(Units.UnitExponent(d.memory.value.unit));
      && (Taken(Memory, d) == bytes <==> -Units.TWO_63 <= bytes < Units.TWO_63)
      && (0 <= d.memory.value.value && bytes < Units.TWO_63 ==> Taken(Memory, d) >= 0)
    ensures Taken(Cpu, d) >= 0
  {
    var value, unit := d.memory.value.value, d.memory.value.unit;
    Units.MemoryToResourceExact(value, unit);
    if value >= 0 {
      assert value * Units.Pow1024(Units.UnitExponent(unit)) >= 0;
    }
  }

  function PlacesOf(r: ResourceName): DomainInfo -> int {
    (d: DomainInfo) => |Places(r, d)|
  }

  lemma {:induction false} SumConst<T>(s: seq<T>, k: int, f: T -> int)
    requires forall x | x in s :: f(x) == k
    ensures Sum(s, f) == k * |s|
  {
    if s != [] {
      assert s[|s| - 1] in s;
      SumConst(s[..|s| - 1], k, f);
    }
  }

  // ----- order independence ---------------------------------------------------------

  /** Equal in everything, with the cells possibly listed in another order. */
  ghost predicate SameUpToCellOrder(a: Hypervisor, b: Hypervisor) {
    b == a.(cells := b.cells) && multiset(a.cells) == multiset(b.cells)
  }

  /**
   Permuting the domains, and ranging over the cell map in any order, changes neither whether the
   accounting succeeds nor, when it does, any total or any cell.
   */
  lemma OrderIndependent(
    topology: seq<TopologyCell>, doms1: seq<DomainInfo>, doms2: seq<DomainInfo>,
    prior: Hypervisor, hv1: Hypervisor, hv2: Hypervisor)
    requires multiset(doms1) == multiset(doms2)
    ensures AllocationFault(Ok(topology), Ok(doms1)).None? <==> AllocationFault(Ok(topology), Ok(doms2)).None?
    ensures Accounted(topology, doms1, prior, hv1) && Accounted(topology, doms2, prior, hv2) ==> SameUpToCellOrder(hv1, hv2)
  {
    assert forall d :: d in doms1 <==> d in multiset(doms1);
    assert forall d :: d in doms2 <==> d in multiset(doms2);
    NoFaultMeansAllFine(doms1, Ids(topology));
    NoFaultMeansAllFine(doms2, Ids(topology));
    SumPermutation(doms1, doms2, TakenOf(Memory));
    SumPermutation(doms1, doms2, TakenOf(Cpu));
    forall id | id in Ids(topology) ensures CellFor(topology, doms1, id) == CellFor(topology, doms2, id) {
      SumPermutation(doms1, doms2, ShareOf(Memory, id));
      SumPermutation(doms1, doms2, ShareOf(Cpu, id));
    }
    assert CellsFor(topology, doms1) == CellsFor(topology, doms2);
  }

  // ----- capacity -------------------------------------------------------------------

  lemma DistinctCons(first: TopologyCell, rest: seq<TopologyCell>)
    ensures DistinctIds([first] + rest) <==> first.id !in Ids(rest) && DistinctIds(rest)
  {
    var topology := [first] + rest;
    IdsHold(rest);
    if DistinctIds(topology) {
      forall j | 0 <= j < |rest| ensures rest[j].id != first.id {
        assert topology[0].id != topology[j + 1].id;
      }
      forall i, j | 0 <= i < j < |rest| ensures rest[i].id != rest[j].id {
        assert topology[i + 1].id != topology[j + 1].id;
      }
    }
  }

  lemma SumCons<T>(first: T, rest: seq<T>, f: T -> int)
    ensures Sum([first] + rest, f) == f(first) + Sum(rest, f)
  {
    SumAppend([first], rest, f);
    assert [first][..0] == [];
  }

  lemma {:induction false} SurvivingSum(topology: seq<TopologyCell>, f: TopologyCell -> int)
    requires forall c | c in topology :: f(c) > 0
    ensures Sum(Surviving(topology), f) <= Sum(topology, f)
    ensures Sum(Surviving(topology), f) == Sum(topology, f) <==> DistinctIds(topology)
  {
    if topology != [] {
      var first, rest := topology[0], topology[1..];
      assert topology == [first] + rest;
      SurvivingSum(rest, f);
      SumCons(first, rest, f);
      SumCons(first, Surviving(rest), f);
      DistinctCons(first, rest);
    }
  }

  lemma {:induction false} DistinctAllSurvive(topology: seq<TopologyCell>)
    requires DistinctIds(topology)
    ensures Surviving(topology) == topology
  {
    if topology != [] {
      var first, rest := topology[0], topology[1..];
      assert topology == [first] + rest;
      DistinctCons(first, rest);
      DistinctAllSurvive(rest);
    }
  }

  /** The cell capacities add up to the capacities of the surviving topology cells. */
  lemma CellCapacities(
    topology: seq<TopologyCell>, doms: seq<DomainInfo>, prior: Hypervisor, hv: Hypervisor, r: ResourceName)
    requires Accounted(topology, doms, prior, hv)
    ensures Sum(hv.cells, CapacityIn(r)) == Sum(Surviving(topology), CellAmount(r))
  {
    var s, cells := Surviving(topology), SurvivingCells(topology, doms);
    CellsAreSurvivors(topology, doms);
    SumPermutation(hv.cells, cells, CapacityIn(r));
    forall i | 0 <= i < |s| ensures CapacityIn(r)(cells[i]) == CellAmount(r)(s[i]) {
      SurvivorIsLast(topology, s[i]);
    }
    SumPointwise(cells, CapacityIn(r), s, CellAmount(r));
  }

  lemma CellCount(topology: seq<TopologyCell>, doms: seq<DomainInfo>, cells: seq<Cell>)
    requires multiset(cells) == multiset(CellsFor(topology, doms))
    ensures |cells| == |Surviving(topology)|
  {
    CellsAreSurvivors(topology, doms);
    assert |cells| == |multiset(cells)|;
    assert |SurvivingCells(topology, doms)| == |multiset(SurvivingCells(topology, doms))|;
  }

  /** With distinct ids every topology cell is reported, with its own capacity, and exactly once. */
  lemma EachCellOnce(
    topology: seq<TopologyCell>, doms: seq<DomainInfo>, prior: Hypervisor, hv: Hypervisor, t: TopologyCell)
    requires Accounted(topology, doms, prior, hv)
    requires DistinctIds(topology) && t in topology
    ensures |hv.cells| == |topology|
    ensures t.id in Ids(topology)
    ensures var c := CellFor(topology, doms, t.id);
      && c.capacity == BothAmounts(CellMemory(t), t.cpus)
      && multiset(hv.cells)[c] == 1
      && forall c' | c' in hv.cells :: c'.id == t.id ==> c' == c
  {
    DistinctAllSurvive(topology);
    CellCount(topology, doms, hv.cells);
    SurvivorIsLast(topology, t);
    IdsHold(topology);
    var c := CellFor(topology, doms, t.id);
    assert c in CellsFor(topology, doms);
    forall c' | c' in hv.cells && c'.id == t.id ensures c' == c {
      assert c' in multiset(hv.cells);
      assert c' in CellsFor(topology, doms);
    }
  }

  /** With distinct ids the cell capacities add up to the total, which is also the separately computed host total. */
  lemma CapacityAddsUp(
    topology: seq<TopologyCell>, doms: seq<DomainInfo>, prior: Hypervisor, hv: Hypervisor, r: ResourceName)
    requires Accounted(topology, doms, prior, hv)
    requires DistinctIds(topology)
    ensures Sum(hv.cells, CapacityIn(r)) == hv.capacity[r] == Sum(topology, CellAmount(r))
  {
    CellCapacities(topology, doms, prior, hv, r);
    DistinctAllSurvive(topology);
  }

  /** A repeated cell id always shows: with positive capacities the sums agree just when the ids are distinct. */
  lemma CapacityAddsUpExactly(
    topology: seq<TopologyCell>, doms: seq<DomainInfo>, prior: Hypervisor, hv: Hypervisor, r: ResourceName)
    requires Accounted(topology, doms, prior, hv)
    requires forall c | c in topology :: CellAmount(r)(c) > 0
    ensures Sum(hv.cells, CapacityIn(r)) <= hv.capacity[r]
    ensures Sum(hv.cells, CapacityIn(r)) == hv.capacity[r] <==> DistinctIds(topology)
  {
    CellCapacities(topology, doms, prior, hv, r);
    SurvivingSum(topology, CellAmount(r));
  }

  // ----- effective capacity ---------------------------------------------------------

  /** The conversion rounds down, as documented, just when the product is not a negative fraction. */
  lemma TruncIsFloor(x: real)
    ensures Trunc(x) == x.Floor <==> x >= 0.0 || x == x.Floor as real
  {
    if x < 0.0 && x != x.Floor as real {
      assert (-x).Floor < -x.Floor;
    }
  }

  function Scaler(ratio: real): int -> int {
    (amount: int) => Scale(amount, ratio)
  }

  function After<T>(f: T -> int, g: int -> int): T -> int {
    (x: T) => g(f(x))
  }

  /** Rounding two amounts separately with `g`, instead of together, loses at most one unit. */
  ghost predicate LosesAtMostOne(g: int -> int, a: int, b: int) {
    g(a) + g(b) <= g(a + b) <= g(a) + g(b) + 1
  }

  lemma {:induction false} FloorsCompose<T>(s: seq<T>, f: T -> int, g: int -> int)
    requires forall a: int, b: int | a >= 0 && b >= 0 :: LosesAtMostOne(g, a, b)
    requires g(0) == 0 && forall x | x in s :: f(x) >= 0
    ensures Sum(s, f) >= 0
    ensures Sum(s, After(f, g)) <= g(Sum(s, f))
    ensures s != [] ==> g(Sum(s, f)) <= Sum(s, After(f, g)) + |s| - 1
  {
    if s != [] {
      var last, rest := s[|s| - 1], s[..|s| - 1];
      assert s == rest + [last];
      assert last in s;
      FloorsCompose(rest, f, g);
      assert LosesAtMostOne(g, Sum(rest, f), f(last));
    }
  }

  lemma ScalerLosesAtMostOne(ratio: real)
    requires ratio >= 0.0
    ensures Scaler(ratio)(0) == 0
    ensures forall a: int, b: int | a >= 0 && b >= 0 :: LosesAtMostOne(Scaler(ratio), a, b)
  {
    FloorOfSum(0, 0, ratio);
    forall a: int, b: int | a >= 0 && b >= 0 ensures LosesAtMostOne(Scaler(ratio), a, b) {
      FloorOfSum(a, b, ratio);
    }
  }

  lemma FloorOfSum(a: int, b: int, ratio: real)
    requires a >= 0 && b >= 0 && ratio >= 0.0
    ensures Scale(a, ratio) + Scale(b, ratio) <= Scale(a + b, ratio) <= Scale(a, ratio) + Scale(b, ratio) + 1
    ensures Scale(0, ratio) == 0
  {
    var x, y := a as real * ratio, b as real * ratio;
    assert (a + b) as real * ratio == x + y;
    assert x >= 0.0 && y >= 0.0;
  }

  lemma EffectiveOfCell(c: Cell, overcommit: map<ResourceName, real>, r: ResourceName)
    requires r in c.capacity
    ensures EffectiveIn(r)(c.(effective := Effective(c.capacity, overcommit)))
      == After(CapacityIn(r), Scaler(Ratio(overcommit, r)))(c)
  {
  }

  lemma TotalEffective(mid: Hypervisor, r: ResourceName)
    requires r in mid.capacity
    ensures var hv := WithEffectiveCapacity(mid);
      && hv.effectiveCapacity.Keys == hv.capacity.Keys
      && hv.effectiveCapacity[r] == Scaler(Ratio(mid.overcommit, r))(mid.capacity[r])
      && |hv.cells| == |mid.cells|
  {
  }

  lemma EffectiveSum(topology: seq<TopologyCell>, doms: seq<DomainInfo>, mid: Hypervisor, r: ResourceName)
    requires multiset(mid.cells) == multiset(CellsFor(topology, doms))
    ensures Sum(WithEffectiveCapacity(mid).cells, EffectiveIn(r))
      == Sum(Surviving(topology), After(CellAmount(r), Scaler(Ratio(mid.overcommit, r))))
  {
    var hv, g := WithEffectiveCapacity(mid), Scaler(Ratio(mid.overcommit, r));
    var s, cells := Surviving(topology), SurvivingCells(topology, doms);
    CellsAreSurvivors(topology, doms);
    forall i | 0 <= i < |mid.cells| ensures EffectiveIn(r)(hv.cells[i]) == After(CapacityIn(r), g)(mid.cells[i]) {
      assert mid.cells[i] in multiset(mid.cells);
      assert mid.cells[i] in CellsFor(topology, doms);
      EffectiveOfCell(mid.cells[i], mid.overcommit, r);
    }
    SumPointwise(hv.cells, EffectiveIn(r), mid.cells, After(CapacityIn(r), g));
    SumPermutation(mid.cells, cells, After(CapacityIn(r), g));
    SurvivorsScaled(topology, doms, r, g);
  }

  lemma SurvivorsScaled(topology: seq<TopologyCell>, doms: seq<DomainInfo>, r: ResourceName, g: int -> int)
    ensures Sum(SurvivingCells(topology, doms), After(CapacityIn(r), g)) == Sum(Surviving(topology), After(CellAmount(r), g))
  {
    var s, cells := Surviving(topology), SurvivingCells(topology, doms);
    forall i | 0 <= i < |s| ensures After(CapacityIn(r), g)(cells[i]) == After(CellAmount(r), g)(s[i]) {
      SurvivorIsLast(topology, s[i]);
      assert CapacityIn(r)(cells[i]) == CellAmount(r)(s[i]);
    }
    SumPointwise(cells, After(CapacityIn(r), g), s, After(CellAmount(r), g));
  }

  /**
   After both capacity steps, for every overcommit ratio: flooring cell by cell never promises more
   than flooring the total, and promises at most one unit less for each cell after the first.
   */
  lemma EffectiveFloors(
    topology: seq<TopologyCell>, doms: seq<DomainInfo>, prior: Hypervisor, mid: Hypervisor, r: ResourceName)
    requires Accounted(topology, doms, prior, mid)
    requires DistinctIds(topology) && topology != []
    requires forall c | c in topology :: CellAmount(r)(c) >= 0
    requires Ratio(mid.overcommit, r) >= 0.0
    ensures var hv := WithEffectiveCapacity(mid);
      var sum := Sum(hv.cells, EffectiveIn(r));
      && hv.effectiveCapacity.Keys == hv.capacity.Keys
      && sum <= hv.effectiveCapacity[r] <= sum + |hv.cells| - 1
  {
    EffectiveSum(topology, doms, mid, r);
    TotalEffective(mid, r);
    DistinctAllSurvive(topology);
    CellCount(topology, doms, mid.cells);
    ScalerLosesAtMostOne(Ratio(mid.overcommit, r));
    FloorsCompose(topology, CellAmount(r), Scaler(Ratio(mid.overcommit, r)));
  }

  lemma EffectiveAtLeast(capacity: Amounts, overcommit: map<ResourceName, real>, r: ResourceName)
    requires Ratio(overcommit, r) >= 1.0 && r in capacity && capacity[r] >= 0
    ensures Effective(capacity, overcommit)[r] >= capacity[r]
  {
    assert capacity[r] as real * Ratio(overcommit, r) >= capacity[r] as real;
  }

  /** With the ratios the resource definition admits, at least one, no capacity shrinks, in total or in any cell. */
  lemma OvercommitNeverShrinks(hv: Hypervisor, r: ResourceName)
    requires forall k | k in hv.overcommit :: hv.overcommit[k] >= 1.0
    ensures var out := WithEffectiveCapacity(hv);
      && (r in hv.capacity && hv.capacity[r] >= 0 ==> out.effectiveCapacity[r] >= hv.capacity[r])
      && |out.cells| == |hv.cells|
      && forall i | 0 <= i < |hv.cells| && r in hv.cells[i].capacity && hv.cells[i].capacity[r] >= 0 ::
           out.cells[i].effective[r] >= hv.cells[i].capacity[r]
  {
    if r in hv.capacity && hv.capacity[r] >= 0 {
      EffectiveAtLeast(hv.capacity, hv.overcommit, r);
    }
    forall i | 0 <= i < |hv.cells| && r in hv.cells[i].capacity && hv.cells[i].capacity[r] >= 0
      ensures WithEffectiveCapacity(hv).cells[i].effective[r] >= hv.cells[i].capacity[r]
    {
      EffectiveAtLeast(hv.cells[i].capacity, hv.overcommit, r);
    }
  }

  /** A resource without a ratio keeps its capacity, in total and in every cell. */
  lemma NoRatioKeepsCapacity(hv: Hypervisor, r: ResourceName)
    requires r !in hv.overcommit
    ensures var out := WithEffectiveCapacity(hv);
      && (r in hv.capacity ==> out.effectiveCapacity[r] == hv.capacity[r])
      && |out.cells| == |hv.cells|
      && forall i | 0 <= i < |hv.cells| && r in hv.cells[i].capacity ::
           out.cells[i].effective[r] == hv.cells[i].capacity[r]
  {
    if r in hv.capacity {
      ScaleByOne(hv.capacity[r]);
    }
    forall i | 0 <= i < |hv.cells| && r in hv.cells[i].capacity
      ensures WithEffectiveCapacity(hv).cells[i].effective[r] == hv.cells[i].capacity[r]
    {
      ScaleByOne(hv.cells[i].capacity[r]);
    }
  }

  lemma ScaleByOne(amount: int)
    ensures Scale(amount, 1.0) == amount
  {
    assert amount as real * 1.0 == amount as real;
  }

  /** Every effective amount is the exact product rounded toward zero; without a ratio it is the capacity itself. */
  predicate Rounded(capacity: Amounts, overcommit: map<ResourceName, real>, effective: Amounts, r: ResourceName) {
    && effective.Keys == capacity.Keys
    && (r in capacity && r !in overcommit ==> effective[r] == capacity[r])
    && (r in capacity && r in overcommit ==>
          var x, product := effective[r] as real, capacity[r] as real * overcommit[r];
          && (product >= 0.0 ==> x <= product < x + 1.0)
          && (product <= 0.0 ==> x - 1.0 < product <= x))
  }

  lemma EffectiveRounded(capacity: Amounts, overcommit: map<ResourceName, real>, r: ResourceName)
    ensures Rounded(capacity, overcommit, Effective(capacity, overcommit), r)
  {
    if r in capacity && r !in overcommit {
      ScaleByOne(capacity[r]);
    }
  }

  /** What overcommit makes of a status: rounded products in total and in every cell, and nothing else changes. */
  lemma ProductsRounded(hv: Hypervisor, out: Hypervisor, r: ResourceName)
    requires out == WithEffectiveCapacity(hv)
    ensures out.(effectiveCapacity := hv.effectiveCapacity, cells := hv.cells) == hv
    ensures Rounded(hv.capacity, hv.overcommit, out.effectiveCapacity, r)
    ensures |out.cells| == |hv.cells|
    ensures forall i | 0 <= i < |hv.cells| ::
      && out.cells[i].(effective := hv.cells[i].effective) == hv.cells[i]
      && Rounded(hv.cells[i].capacity, hv.overcommit, out.cells[i].effective, r)
  {
    EffectiveRounded(hv.capacity, hv.overcommit, r);
    forall i | 0 <= i < |hv.cells| ensures Rounded(hv.cells[i].capacity, hv.overcommit, out.cells[i].effective, r) {
      EffectiveRounded(hv.cells[i].capacity, hv.overcommit, r);
    }
  }

  // ----- the accounting read off the descriptions -----------------------------------

  /** Nothing the accounting looks at is missing. */
  predicate Complete(d: DomainInfo) {
    d.memory.Some? && d.vcpuPins.Some? && d.memNodes.Some? && d.cpu.Some? && d.cpu.value.Some?
  }

  /** When a domain passes every check, and which fault it is charged with otherwise. */
  lemma DomainFaultExactly(d: DomainInfo, known: set<nat>)
    ensures DomainFault(d, known).None? <==>
      && Complete(d) && d.memory.value.unit in {"KiB", "MiB", "GiB", "TiB"}
      && (forall id | id in d.memNodes.value :: id in known)
      && (forall id | id in d.cpu.value.value :: id in known)
    ensures DomainFault(d, known).Some? ==>
      var memoryOk := d.memory.Some? && d.memory.value.unit in {"KiB", "MiB", "GiB", "TiB"};
      var nodesOk := d.memNodes.Some? && forall id | id in d.memNodes.value :: id in known;
      match DomainFault(d, known).value
      case NilDereference("memory") => d.memory.None?
      case UnknownUnit(u) => d.memory.Some? && u == d.memory.value.unit && !memoryOk
      case MissingCpuTune(n) => n == d.name && memoryOk && d.vcpuPins.None?
      case NilDereference("numatune") => memoryOk && d.vcpuPins.Some? && d.memNodes.None?
      case UnknownMemoryCell(n, id) =>
        memoryOk && d.vcpuPins.Some? && d.memNodes.Some? && n == d.name && FirstOutside(d.memNodes.value, known, id)
      case NilDereference("cpu") => memoryOk && d.vcpuPins.Some? && nodesOk && d.cpu.None?
      case MissingCpuNuma(n) => memoryOk && d.vcpuPins.Some? && nodesOk && d.cpu == Some(None) && n == d.name
      case UnknownCpuCell(n, id) =>
        memoryOk && d.vcpuPins.Some? && nodesOk && d.cpu.Some? && d.cpu.value.Some? && n == d.name
        && FirstOutside(d.cpu.value.value, known, id)
      case _ => false
  {
    if d.memNodes.Some? && FirstMissing(d.memNodes.value, known).Some? {
      MissingIsFirst(d.memNodes.value, known);
    }
    if d.cpu.Some? && d.cpu.value.Some? && FirstMissing(d.cpu.value.value, known).Some? {
      MissingIsFirst(d.cpu.value.value, known);
    }
  }

  /** `id` is the first in the list that is not known. */
  ghost predicate FirstOutside(ids: seq<nat>, known: set<nat>, id: nat) {
    exists i | 0 <= i < |ids| :: ids[i] == id && id !in known && forall j | 0 <= j < i :: ids[j] in known
  }

  lemma {:induction false} MissingIsFirst(ids: seq<nat>, known: set<nat>)
    requires FirstMissing(ids, known).Some?
    ensures FirstOutside(ids, known, FirstMissing(ids, known).value)
  {
    if ids[0] !in known {
      assert ids[0] == FirstMissing(ids, known).value;
    } else {
      var rest := ids[1..];
      MissingIsFirst(rest, known);
      var id := FirstMissing(rest, known).value;
      var i :| 0 <= i < |rest| && rest[i] == id && id !in known && forall j | 0 <= j < i :: rest[j] in known;
      forall j | 0 <= j < i + 1 ensures ids[j] in known {
        assert j > 0 ==> ids[j] == rest[j - 1];
      }
      assert ids[i + 1] == id;
    }
  }

  /** The fault of a list of domains is that of the first domain that has one. */
  lemma {:induction false} FirstDomainFaultMeans(doms: seq<DomainInfo>, known: set<nat>) returns (i: nat)
    ensures i <= |doms| && forall j | 0 <= j < i :: DomainFault(doms[j], known).None?
    ensures FirstDomainFault(doms, known) == if i < |doms| then DomainFault(doms[i], known) else None
    ensures i < |doms| ==> DomainFault(doms[i], known).Some?
  {
    i := 0;
    if doms != [] {
      var n, rest := |doms| - 1, doms[..|doms| - 1];
      i := FirstDomainFaultMeans(rest, known);
      assert forall j | 0 <= j < n :: doms[j] == rest[j];
      if i == n && DomainFault(doms[n], known).None? {
        i := n + 1;
      }
    }
  }

  lemma {:induction false} FirstUnitFaultMeans(topology: seq<TopologyCell>)
    ensures FirstUnitFault(topology).Some? ==>
      exists i | 0 <= i < |topology| :: FirstUnitFault(topology) == Some(UnknownUnit(topology[i].unit))
        && topology[i].unit !in {"KiB", "MiB", "GiB", "TiB"}
        && forall j | 0 <= j < i :: topology[j].unit in {"KiB", "MiB", "GiB", "TiB"}
    ensures FirstUnitFault(topology).None? ==>
      forall i | 0 <= i < |topology| :: topology[i].unit in {"KiB", "MiB", "GiB", "TiB"}
  {
    if topology != [] {
      var n, rest := |topology| - 1, topology[..|topology| - 1];
      FirstUnitFaultMeans(rest);
      if FirstUnitFault(rest).Some? {
        var i :| 0 <= i < |rest| && FirstUnitFault(rest) == Some(UnknownUnit(rest[i].unit))
          && rest[i].unit !in {"KiB", "MiB", "GiB", "TiB"}
          && forall j | 0 <= j < i :: rest[j].unit in {"KiB", "MiB", "GiB", "TiB"};
        assert topology[i] == rest[i];
      } else {
        assert forall j | 0 <= j < n :: topology[j] == rest[j];
      }
    }
  }

  /** How many bytes an amount in a known unit is. */
  function UnitSize(unit: string): int {
    match unit
    case "KiB" => 1024
    case "MiB" => 1048576
    case "GiB" => 1073741824
    case "TiB" => 1099511627776
    case _ => 0
  }

  lemma BytesOf(value: int, unit: string)
    requires unit in {"KiB", "MiB", "GiB", "TiB"}
    ensures InBytes(value, unit) == Units.Quantity(Units.Wrap64(value * UnitSize(unit)))
  {
    Units.MemoryToResourceExact(value, unit);
    Units.UnitTable(value);
  }

  /** `share` is an even part of `amount`, truncated toward zero, for each time `ids` names `id`. */
  predicate IsShare(share: int, ids: seq<nat>, id: nat, amount: int) {
    if ids == [] then share == 0
    else share == Count(ids, id) * (if amount >= 0 then amount / |ids| else -(-amount / |ids|))
  }

  /**
   Without a fault the CPU allocation is the number of pinned vCPUs of all domains, and a cell's is, for every
   domain, an even share of its pins for each time the domain names the cell.
   */
  lemma CpuFromDescriptions(
    topology: seq<TopologyCell>, doms: seq<DomainInfo>, prior: Hypervisor, hv: Hypervisor,
    pins: DomainInfo -> int, share: nat -> DomainInfo -> int)
    requires AllocationFault(Ok(topology), Ok(doms)).None? && Accounted(topology, doms, prior, hv)
    requires forall d | d in doms && Complete(d) :: pins(d) == d.vcpuPins.value
    requires forall d, id: nat | d in doms && Complete(d) ::
      IsShare(share(id)(d), d.cpu.value.value, id, d.vcpuPins.value)
    ensures forall d | d in doms :: Complete(d)
    ensures hv.allocation[Cpu] == Sum(doms, pins)
    ensures forall c | c in hv.cells :: Cpu in c.allocation && c.allocation[Cpu] == Sum(doms, share(c.id))
  {
    AllComplete(topology, doms);
    SumPointwise(doms, TakenOf(Cpu), doms, pins);
    forall c | c in hv.cells ensures Cpu in c.allocation && c.allocation[Cpu] == Sum(doms, share(c.id)) {
      ReportedCell(topology, doms, hv.cells, c);
      assert forall d | d in doms :: Complete(d) && IsShare(share(c.id)(d), Places(Cpu, d), c.id, Taken(Cpu, d));
      SharesMatch(doms, Cpu, c.id, share(c.id));
    }
  }

  lemma ShareIsEven(r: ResourceName, d: DomainInfo, id: nat)
    ensures IsShare(Share(r, id, d), Places(r, d), id, Taken(r, d))
  {
    RepeatedIsProduct(Places(r, d), id, PerCell(Taken(r, d), |Places(r, d)|));
  }

  lemma SharesMatch(doms: seq<DomainInfo>, r: ResourceName, id: nat, share: DomainInfo -> int)
    requires forall d | d in doms :: IsShare(share(d), Places(r, d), id, Taken(r, d))
    ensures Sum(doms, ShareOf(r, id)) == Sum(doms, share)
  {
    forall i | 0 <= i < |doms| ensures ShareOf(r, id)(doms[i]) == share(doms[i]) {
      ShareIsEven(r, doms[i], id);
      assert doms[i] in doms;
    }
    SumPointwise(doms, ShareOf(r, id), doms, share);
  }

  /** The same for memory, in bytes, each amount wrapped to 64 bits. */
  lemma MemoryFromDescriptions(
    topology: seq<TopologyCell>, doms: seq<DomainInfo>, prior: Hypervisor, hv: Hypervisor,
    bytes: DomainInfo -> int, share: nat -> DomainInfo -> int)
    requires AllocationFault(Ok(topology), Ok(doms)).None? && Accounted(topology, doms, prior, hv)
    requires forall d | d in doms && Complete(d) ::
      bytes(d) == Units.Wrap64(d.memory.value.value * UnitSize(d.memory.value.unit))
    requires forall d, id: nat | d in doms && Complete(d) :: IsShare(share(id)(d), d.memNodes.value, id, bytes(d))
    ensures hv.allocation[Memory] == Sum(doms, bytes)
    ensures forall c | c in hv.cells :: Memory in c.allocation && c.allocation[Memory] == Sum(doms, share(c.id))
  {
    AllComplete(topology, doms);
    forall d | d in doms ensures Taken(Memory, d) == bytes(d) {
      assert Complete(d);
      BytesOf(d.memory.value.value, d.memory.value.unit);
    }
    SumPointwise(doms, TakenOf(Memory), doms, bytes);
    forall c | c in hv.cells ensures Memory in c.allocation && c.allocation[Memory] == Sum(doms, share(c.id)) {
      ReportedCell(topology, doms, hv.cells, c);
      assert forall d | d in doms :: Complete(d) && IsShare(share(c.id)(d), Places(Memory, d), c.id, Taken(Memory, d));
      SharesMatch(doms, Memory, c.id, share(c.id));
    }
  }

  lemma AllComplete(topology: seq<TopologyCell>, doms: seq<DomainInfo>)
    requires AllocationFault(Ok(topology), Ok(doms)).None?
    ensures forall d | d in doms :: Complete(d) && d.memory.value.unit in {"KiB", "MiB", "GiB", "TiB"}
  {
    NoFaultMeansAllFine(doms, Ids(topology));
    forall d | d in doms ensures Complete(d) && d.memory.value.unit in {"KiB", "MiB", "GiB", "TiB"} {
      DomainFaultExactly(d, Ids(topology));
    }
  }

  lemma ReportedCell(topology: seq<TopologyCell>, doms: seq<DomainInfo>, cells: seq<Cell>, c: Cell)
    requires multiset(cells) == multiset(CellsFor(topology, doms)) && c in cells
    ensures c.id in Ids(topology) && c == CellFor(topology, doms, c.id)
  {
    assert c in multiset(cells);
    assert c in CellsFor(topology, doms);
  }

  /** The capacities read off the topology: totals over all cells, and for a reported cell those of the last of its id. */
  lemma CapacityFromTopology(
    topology: seq<TopologyCell>, doms: seq<DomainInfo>, prior: Hypervisor, hv: Hypervisor,
    bytes: TopologyCell -> int, cpus: TopologyCell -> int)
    requires FirstUnitFault(topology).None? && Accounted(topology, doms, prior, hv)
    requires forall t | t in topology :: bytes(t) == Units.Wrap64(t.memory * UnitSize(t.unit)) && cpus(t) == t.cpus
    ensures hv.capacity == map[Memory := Sum(topology, bytes), Cpu := Sum(topology, cpus)]
    ensures forall c | c in hv.cells :: exists i | 0 <= i < |topology| ::
      && topology[i].id == c.id && (forall j | i < j < |topology| :: topology[j].id != c.id)
      && c.capacity == map[Memory := bytes(topology[i]), Cpu := topology[i].cpus]
  {
    CellBytes(topology, bytes);
    SumPointwise(topology, CellAmount(Memory), topology, bytes);
    SumPointwise(topology, CellAmount(Cpu), topology, cpus);
    forall c | c in hv.cells ensures exists i | 0 <= i < |topology| ::
      && topology[i].id == c.id && (forall j | i < j < |topology| :: topology[j].id != c.id)
      && c.capacity == map[Memory := bytes(topology[i]), Cpu := topology[i].cpus]
    {
      ReportedCell(topology, doms, hv.cells, c);
      var i := LastIndex(topology, c.id);
    }
  }

  lemma CellBytes(topology: seq<TopologyCell>, bytes: TopologyCell -> int)
    requires FirstUnitFault(topology).None?
    requires forall t | t in topology :: bytes(t) == Units.Wrap64(t.memory * UnitSize(t.unit))
    ensures forall i | 0 <= i < |topology| :: CellMemory(topology[i]) == bytes(topology[i])
  {
    FirstUnitFaultMeans(topology);
    forall i | 0 <= i < |topology| ensures CellMemory(topology[i]) == bytes(topology[i]) {
      BytesOf(topology[i].memory, topology[i].unit);
    }
  }

  lemma {:induction false} LastIndex(topology: seq<TopologyCell>, id: nat) returns (i: nat)
    requires id in Ids(topology)
    ensures i < |topology| && topology[i] == LastWithId(topology, id) && topology[i].id == id
    ensures forall j | i < j < |topology| :: topology[j].id != id
  {
    var rest := topology[1..];
    IdsHold(rest);
    if id in Ids(rest) {
      var k := LastIndex(rest, id);
      i := k + 1;
      forall j | i < j < |topology| ensures topology[j].id != id {
        assert topology[j] == rest[j - 1];
      }
    } else {
      i := 0;
      forall j | 0 < j < |topology| ensures topology[j].id != id {
        assert topology[j] == rest[j - 1];
      }
    }
  }
}
