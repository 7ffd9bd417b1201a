/** The in-memory capacity ledger: admission checks, allocation, release and rebuilding. */
module Capacity {
  import opened Results
  import opened Ordered
  import opened Text
  import opened Values

  datatype Allocation = Allocation(cpu: int, memory: int, disk: int) {
    function Plus(other: Allocation): Allocation {
      Allocation(cpu + other.cpu, memory + other.memory, disk + other.disk)
    }

    predicate NonNegative() {
      cpu >= 0 && memory >= 0 && disk >= 0
    }
  }

  type Ledger = map<string, Allocation>

  /** Host readings and configuration, fixed over a run. */
  datatype Host = Host(
    totalCpu: int, reservedCores: seq<int>,
    totalMemory: int, reservedMemory: int,
    totalDisk: int, availableDisk: int,
    maxVms: int)

  datatype HostCapacity = HostCapacity(
    totalCpu: int, availableCpu: int,
    totalMemory: int, availableMemory: int,
    totalDisk: int, availableDisk: int,
    activeVms: nat, maxVms: int)

  datatype CheckResult = CheckResult(
    sufficient: bool, availableCpu: int, availableMemory: int, availableDisk: int, shortfall: Option<string>)

  const NOTHING := Allocation(0, 0, 0)

  function Max(a: int, b: int): int {
    if a < b then b else a
  }

  // ----- sums over a ledger

  lemma KeyExists(ledger: Ledger)
    requires ledger != map[]
    ensures exists v :: v in ledger
  {
    assert ledger.Keys == {} ==> ledger == map[];
    var v := Pick(ledger.Keys);
  }

  /** The component-wise sum of all entries. */
  ghost function Sum(ledger: Ledger): Allocation
    decreases |ledger|
  {
    if ledger == map[] then NOTHING
    else
      KeyExists(ledger);
      var v :| v in ledger;
      ledger[v].Plus(Sum(ledger - {v}))
  }

  /** The sum does not depend on the order in which entries are taken. */
  lemma {:induction false} SumSplit(ledger: Ledger, v: string)
    requires v in ledger
    ensures Sum(ledger) == ledger[v].Plus(Sum(ledger - {v}))
    decreases |ledger|
  {
    KeyExists(ledger);
    var u :| u in ledger && Sum(ledger) == ledger[u].Plus(Sum(ledger - {u}));
    if u != v {
      SumSplit(ledger - {u}, v);
      SumSplit(ledger - {v}, u);
      assert ledger - {u} - {v} == ledger - {v} - {u};
      var rest := Sum(ledger - {u} - {v});
      assert Sum(ledger) == ledger[u].Plus(ledger[v].Plus(rest));
      assert Sum(ledger - {v}) == ledger[u].Plus(rest);
    }
  }

  lemma SumAdd(ledger: Ledger, v: string, a: Allocation)
    requires v !in ledger
    ensures Sum(ledger[v := a]) == Sum(ledger).Plus(a)
  {
    SumSplit(ledger[v := a], v);
    assert ledger[v := a] - {v} == ledger;
  }

  // ----- get_capacity and check_spec

  ghost function CapacityOf(host: Host, ledger: Ledger): HostCapacity {
    var used := Sum(ledger);
    HostCapacity(
      host.totalCpu, Max(host.totalCpu - |Members(host.reservedCores)| - used.cpu, 0),
      host.totalMemory, Max(host.totalMemory - host.reservedMemory - used.memory, 0),
      host.totalDisk, Max(host.availableDisk - used.disk, 0),
      |ledger|, host.maxVms)
  }

  /** Whether one more VM with these needs still fits. */
  predicate Sufficient(capacity: HostCapacity, need: Allocation) {
    && capacity.activeVms < capacity.maxVms
    && need.cpu <= capacity.availableCpu
    && need.memory <= capacity.availableMemory
    && need.disk <= capacity.availableDisk
  }

  ghost predicate Admissible(host: Host, ledger: Ledger, need: Allocation) {
    Sufficient(CapacityOf(host, ledger), need)
  }

  function Shortfalls(capacity: HostCapacity, need: Allocation): seq<string> {
    (if capacity.activeVms >= capacity.maxVms then ["vm_count"] else [])
    + (if need.cpu > capacity.availableCpu then ["cpu"] else [])
    + (if need.memory > capacity.availableMemory then ["memory"] else [])
    + (if need.disk > capacity.availableDisk then ["disk"] else [])
  }

  /** The shortfall text names exactly the resources that do not fit, and is absent when all do. */
  lemma ShortfallsMeaning(c: HostCapacity, need: Allocation)
    ensures Shortfalls(c, need) == [] <==> Sufficient(c, need)
    ensures "vm_count" in Shortfalls(c, need) <==> c.activeVms >= c.maxVms
    ensures "cpu" in Shortfalls(c, need) <==> need.cpu > c.availableCpu
    ensures "memory" in Shortfalls(c, need) <==> need.memory > c.availableMemory
    ensures "disk" in Shortfalls(c, need) <==> need.disk > c.availableDisk
  {
    var a := if c.activeVms >= c.maxVms then ["vm_count"] else [];
    var b := if need.cpu > c.availableCpu then ["cpu"] else [];
    var d := if need.memory > c.availableMemory then ["memory"] else [];
    var e := if need.disk > c.availableDisk then ["disk"] else [];
    assert Shortfalls(c, need) == a + b + d + e;
    forall t ensures t in Shortfalls(c, need) <==> t in a || t in b || t in d || t in e {}
    assert "vm_count" != "cpu" && "memory" != "disk" && "cpu" != "disk" && "memory" != "cpu";
  }

  const SHORTFALL_NAMES := ["vm_count", "cpu", "memory", "disk"]

  function NameRank(name: string): nat {
    if name == "vm_count" then 0 else if name == "cpu" then 1 else if name == "memory" then 2 else 3
  }

  /** The names come in a fixed order, each at most once. */
  lemma ShortfallsOrdered(c: HostCapacity, need: Allocation, i: nat, j: nat)
    requires i < j < |Shortfalls(c, need)|
    ensures Shortfalls(c, need)[i] in SHORTFALL_NAMES && Shortfalls(c, need)[j] in SHORTFALL_NAMES
    ensures NameRank(Shortfalls(c, need)[i]) < NameRank(Shortfalls(c, need)[j])
  {
    assert "vm_count" != "cpu" && "memory" != "disk" && "cpu" != "disk" && "memory" != "cpu";
    assert NameRank("vm_count") == 0 && NameRank("cpu") == 1 && NameRank("memory") == 2 && NameRank("disk") == 3;
  }

  /** When nothing fits the text names everything. */
  lemma ShortfallText(c: HostCapacity, need: Allocation)
    requires c.activeVms >= c.maxVms && need.cpu > c.availableCpu
    requires need.memory > c.availableMemory && need.disk > c.availableDisk
    ensures Join(Shortfalls(c, need), ", ") == "vm_count, cpu, memory, disk"
  {
    var all := Shortfalls(c, need);
    assert all == ["vm_count"] + (["cpu"] + (["memory"] + ["disk"]));
    JoinAppend(["memory"], ["disk"], ", ");
    JoinAppend(["cpu"], ["memory"] + ["disk"], ", ");
    JoinAppend(["vm_count"], ["cpu"] + (["memory"] + ["disk"]), ", ");
  }

  /** What is available and what is allocated add up to the totals less the reservations, unless the ledger
      exceeds these; disk is reckoned from what the file system has left. The totals are the host's. */
  lemma CapacityAddsUp(host: Host, ledger: Ledger)
    ensures var c, used := CapacityOf(host, ledger), Sum(ledger);
      && c.totalCpu == host.totalCpu && c.totalMemory == host.totalMemory && c.totalDisk == host.totalDisk
      && c.activeVms == |ledger| && c.maxVms == host.maxVms
      && c.availableCpu >= 0 && c.availableMemory >= 0 && c.availableDisk >= 0
      && (if c.availableCpu > 0 then c.availableCpu + used.cpu + |Members(host.reservedCores)| == host.totalCpu
          else used.cpu + |Members(host.reservedCores)| >= host.totalCpu)
      && (if c.availableMemory > 0 then c.availableMemory + used.memory + host.reservedMemory == host.totalMemory
          else used.memory + host.reservedMemory >= host.totalMemory)
      && (if c.availableDisk > 0 then c.availableDisk + used.disk == host.availableDisk
          else used.disk >= host.availableDisk)
  {
  }

  // ----- rebuilding from store rows

  /** A row counts as active unless its status says otherwise. */
  predicate IsActive(row: Object) {
    Lower(PyStr(Get(row, "status", Str("running")))) in {"running", "creating"}
  }

  /** The row's VM id, or "" when it has none. */
  function RowId(row: Object): string {
    PyStr(Get(row, "id", Get(row, "vm_id", Str(""))))
  }

  function Field(row: Object, key: string): Option<int> {
    if key in row then ToInt(row[key]) else None
  }

  /** The row's resources, unless one of them is missing or not a number. */
  function RowAllocation(row: Object): Option<Allocation> {
    match (Field(row, "cpu_cores"), Field(row, "memory_mb"), Field(row, "disk_gb"))
    case (Some(cpu), Some(memory), Some(disk)) => Some(Allocation(cpu, memory, disk))
    case _ => None
  }

  /** What one row contributes to the rebuilt ledger. */
  datatype Entry = Skip | Put(id: string, allocation: Allocation)

  function RowEntry(row: Object): Entry {
    if IsActive(row) && RowId(row) != "" && RowAllocation(row).Some?
    then Put(RowId(row), RowAllocation(row).value)
    else Skip
  }

  function RowEntries(rows: seq<Object>): (entries: seq<Entry>)
    ensures |entries| == |rows|
    ensures forall i :: 0 <= i < |rows| ==> entries[i] == RowEntry(rows[i])
  {
    seq(|rows|, i requires 0 <= i < |rows| => RowEntry(rows[i]))
  }

  /** Entries are taken in order and a later one with the same id wins. */
  function Collected(entries: seq<Entry>): Ledger {
    if entries == [] then map[]
    else
      var before := Collected(entries[..|entries| - 1]);
      match entries[|entries| - 1]
      case Skip => before
      case Put(id, allocation) => before[id := allocation]
  }

  function Rebuilt(rows: seq<Object>): Ledger {
    Collected(RowEntries(rows))
  }

  lemma RebuiltNext(rows: seq<Object>, i: nat)
    requires i < |rows|
    ensures Rebuilt(rows[..i + 1]) ==
      match RowEntry(rows[i])
      case Skip => Rebuilt(rows[..i])
      case Put(id, allocation) => Rebuilt(rows[..i])[id := allocation]
  {
    var entries := RowEntries(rows[..i + 1]);
    assert entries[..i] == RowEntries(rows[..i]);
  }

  // What rows do to the ledger.

  lemma {:induction false} CollectedAround(a: seq<Entry>, b: seq<Entry>)
    ensures Collected(a + [Skip] + b) == Collected(a + b)
    decreases |b|
  {
    if b == [] {
      assert a + [Skip] + b == a + [Skip] && (a + [Skip])[..|a|] == a && a + b == a;
    } else {
      var front, last := b[..|b| - 1], b[|b| - 1];
      CollectedAround(a, front);
      assert (a + [Skip] + b)[..|a| + |b|] == a + [Skip] + front && (a + b)[..|a| + |b| - 1] == a + front;
    }
  }

  /** The row says it is neither running nor creating, in any capitalisation. */
  predicate SaysInactive(row: Object) {
    "status" in row && Lower(PyStr(row["status"])) != "running" && Lower(PyStr(row["status"])) != "creating"
  }

  /** The row has no id of either kind, or an empty one. */
  predicate Nameless(row: Object) {
    if "id" in row then PyStr(row["id"]) == ""
    else "vm_id" in row ==> PyStr(row["vm_id"]) == ""
  }

  predicate NoNumber(row: Object, key: string) {
    key in row ==> ToInt(row[key]).None?
  }

  lemma RowSkipped(row: Object)
    requires
      || SaysInactive(row) || Nameless(row)
      || NoNumber(row, "cpu_cores") || NoNumber(row, "memory_mb") || NoNumber(row, "disk_gb")
    ensures RowEntry(row) == Skip
  {
  }

  lemma EntriesAround(before: seq<Object>, row: Object, after: seq<Object>)
    ensures RowEntries(before + [row] + after) == RowEntries(before) + [RowEntry(row)] + RowEntries(after)
    ensures RowEntries(before + after) == RowEntries(before) + RowEntries(after)
  {
  }

  /** Rows that are inactive, nameless or short of a number change nothing, wherever they stand. */
  lemma RowIgnored(before: seq<Object>, row: Object, after: seq<Object>)
    requires
      || SaysInactive(row) || Nameless(row)
      || NoNumber(row, "cpu_cores") || NoNumber(row, "memory_mb") || NoNumber(row, "disk_gb")
    ensures Rebuilt(before + [row] + after) == Rebuilt(before + after)
  {
    RowSkipped(row);
    EntriesAround(before, row, after);
    CollectedAround(RowEntries(before), RowEntries(after));
  }

  /** Every other row enters its numbers under its id, over what was there. */
  lemma RowEntered(before: seq<Object>, row: Object)
    requires !SaysInactive(row) && !Nameless(row)
    requires !NoNumber(row, "cpu_cores") && !NoNumber(row, "memory_mb") && !NoNumber(row, "disk_gb")
    ensures var id := if "id" in row then PyStr(row["id"]) else PyStr(row["vm_id"]);
      Rebuilt(before + [row]) == Rebuilt(before)[
        id := Allocation(
          ToInt(row["cpu_cores"]).value, ToInt(row["memory_mb"]).value, ToInt(row["disk_gb"]).value)]
  {
    var rows := before + [row];
    assert rows[..|before|] == before && rows[..|before| + 1] == rows;
    assert Lower("running") == "running";
    RebuiltNext(rows, |before|);
  }

  // ----- the manager

  class CapacityManager {
    const host: Host
    var allocations: Ledger

    constructor (host: Host)
      ensures this.host == host && allocations == map[]
    {
      this.host := host;
      allocations := map[];
    }

    method Totals() returns (used: Allocation)
      ensures used == Sum(allocations)
    {
      used := NOTHING;
      var rest := allocations;
      while rest != map[]
        invariant rest.Keys <= allocations.Keys
        invariant forall v :: v in rest ==> rest[v] == allocations[v]
        invariant Sum(allocations) == used.Plus(Sum(rest))
        decreases |rest|
      {
        KeyExists(rest);
        var v :| v in rest;
        SumSplit(rest, v);
        used := used.Plus(rest[v]);
        rest := rest - {v};
      }
    }

    method GetCapacity() returns (capacity: HostCapacity)
      ensures capacity == CapacityOf(host, allocations)
    {
      var used := Totals();
      capacity := HostCapacity(
        host.totalCpu, Max(host.totalCpu - |Members(host.reservedCores)| - used.cpu, 0),
        host.totalMemory, Max(host.totalMemory - host.reservedMemory - used.memory, 0),
        host.totalDisk, Max(host.availableDisk - used.disk, 0),
        |allocations|, host.maxVms);
    }

    method CheckSpec(cpu: int, memory: int, disk: int) returns (r: CheckResult)
      ensures r.sufficient == Admissible(host, allocations, Allocation(cpu, memory, disk))
      ensures var c := CapacityOf(host, allocations);
        && r.availableCpu == c.availableCpu
        && r.availableMemory == c.availableMemory
        && r.availableDisk == c.availableDisk
        && r.shortfall == if r.sufficient then None
                          else Some(Join(Shortfalls(c, Allocation(cpu, memory, disk)), ", "))
    {
      var c := GetCapacity();
      var shortfalls: seq<string> := [];
      if c.activeVms >= c.maxVms {
        shortfalls := shortfalls + ["vm_count"];
      }
      if cpu > c.availableCpu {
        shortfalls := shortfalls + ["cpu"];
      }
      if memory > c.availableMemory {
        shortfalls := shortfalls + ["memory"];
      }
      if disk > c.availableDisk {
        shortfalls := shortfalls + ["disk"];
      }
      assert shortfalls == Shortfalls(c, Allocation(cpu, memory, disk));
      if shortfalls != [] {
        return CheckResult(false, c.availableCpu, c.availableMemory, c.availableDisk, Some(Join(shortfalls, ", ")));
      }
      return CheckResult(true, c.availableCpu, c.availableMemory, c.availableDisk, None);
    }

    method Allocate(vm: string, cpu: int, memory: int, disk: int) returns (r: Result<()>)
      modifies this`allocations
      ensures vm in old(allocations) ==> r == Err(ValueError) && allocations == old(allocations)
      ensures vm !in old(allocations) ==>
        r == Ok(()) && allocations == old(allocations)[vm := Allocation(cpu, memory, disk)]
    {
      if vm in allocations {
        return Err(ValueError);
      }
      allocations := allocations[vm := Allocation(cpu, memory, disk)];
      return Ok(());
    }

    method Release(vm: string)
      modifies this`allocations
      ensures allocations == old(allocations) - {vm}
    {
      allocations := allocations - {vm};
    }

    /** rows is what the store's get_active_vms returns. */
    method ReconcileAllocations(rows: seq<Object>)
      modifies this`allocations
      ensures allocations == Rebuilt(rows)
    {
      var rebuilt: Ledger := map[];
      for i := 0 to |rows|
        invariant rebuilt == Rebuilt(rows[..i])
      {
        RebuiltNext(rows, i);
        if !IsActive(rows[i]) {
          continue;
        }
        var vm := RowId(rows[i]);
        if vm == "" {
          continue;
        }
        var allocation := RowAllocation(rows[i]);
        if allocation == None {
          continue;
        }
        rebuilt := rebuilt[vm := allocation.value];
      }
      assert rows[..|rows|] == rows;
      allocations := rebuilt;
    }
  }

  // ----- ledger algebra

  datatype LedgerCall = Allocate(vm: string, need: Allocation) | Release(vm: string)

  /** A call's effect on the ledger; a refused allocation has none. */
  function Called(ledger: Ledger, call: LedgerCall): Ledger {
    match call
    case Allocate(vm, need) => if vm in ledger then ledger else ledger[vm := need]
    case Release(vm) => ledger - {vm}
  }

  /** Calls on different VMs commute. */
  lemma CallsCommute(ledger: Ledger, a: LedgerCall, b: LedgerCall)
    requires a.vm != b.vm
    ensures Called(Called(ledger, a), b) == Called(Called(ledger, b), a)
  {
    assert forall v :: v in Called(Called(ledger, a), b) <==> v in Called(Called(ledger, b), a);
  }

  /** Releasing a fresh allocation restores the ledger and hence every capacity figure. */
  lemma ReleaseUndoesAllocate(host: Host, ledger: Ledger, vm: string, need: Allocation)
    requires vm !in ledger
    ensures var after := Called(Called(ledger, Allocate(vm, need)), Release(vm));
      after == ledger && CapacityOf(host, after) == CapacityOf(host, ledger)
  {
    assert ledger[vm := need] - {vm} == ledger;
  }

  /** What the host has to give; a component is negative when reservations exceed the total. */
  function Budget(host: Host): Allocation {
    Allocation(
      host.totalCpu - |Members(host.reservedCores)|, host.totalMemory - host.reservedMemory, host.availableDisk)
  }

  /** An admitted allocation of any sign lowers an availability by exactly what was asked for,
      unless the ledger is over the budget and the request is not zero. */
  lemma AdmissionLowersExactly(host: Host, ledger: Ledger, vm: string, need: Allocation)
    requires Admissible(host, ledger, need) && vm !in ledger
    ensures var before, after := CapacityOf(host, ledger), CapacityOf(host, ledger[vm := need]);
      var used, budget := Sum(ledger), Budget(host);
      && (after.availableCpu == before.availableCpu - need.cpu <==> need.cpu == 0 || used.cpu <= budget.cpu)
      && (after.availableMemory == before.availableMemory - need.memory <==>
            need.memory == 0 || used.memory <= budget.memory)
      && (after.availableDisk == before.availableDisk - need.disk <==> need.disk == 0 || used.disk <= budget.disk)
      && after.activeVms == before.activeVms + 1
  {
    SumAdd(ledger, vm, need);
  }

  // ----- no overcommit

  ghost predicate WithinBounds(host: Host, ledger: Ledger) {
    var used := Sum(ledger);
    && used.cpu <= Max(host.totalCpu - |Members(host.reservedCores)|, 0)
    && used.memory <= Max(host.totalMemory - host.reservedMemory, 0)
    && used.disk <= Max(host.availableDisk, 0)
    && |ledger| <= Max(host.maxVms, 0)
  }

  ghost predicate AllNonNegative(ledger: Ledger) {
    forall v :: v in ledger ==> ledger[v].NonNegative()
  }

  datatype LedgerEvent = Admit(vm: string, need: Allocation) | Leave(vm: string)

  /** The disciplined caller: check, then allocate if sufficient, with nothing in between. */
  ghost function After(host: Host, ledger: Ledger, event: LedgerEvent): Ledger {
    match event
    case Admit(vm, need) => if Admissible(host, ledger, need) then Called(ledger, Allocate(vm, need)) else ledger
    case Leave(vm) => Called(ledger, Release(vm))
  }

  ghost function LedgerAfter(host: Host, start: Ledger, events: seq<LedgerEvent>): Ledger {
    if events == [] then start
    else After(host, LedgerAfter(host, start, events[..|events| - 1]), events[|events| - 1])
  }

  ghost predicate NonNegativeRequests(events: seq<LedgerEvent>) {
    forall i :: 0 <= i < |events| && events[i].Admit? ==> events[i].need.NonNegative()
  }

  lemma AdmitKeepsBounds(host: Host, ledger: Ledger, vm: string, need: Allocation)
    requires WithinBounds(host, ledger)
    requires Admissible(host, ledger, need) && need.NonNegative() && vm !in ledger
    ensures WithinBounds(host, ledger[vm := need])
  {
    SumAdd(ledger, vm, need);
  }

  lemma LeaveKeepsBounds(host: Host, ledger: Ledger, vm: string)
    requires WithinBounds(host, ledger) && AllNonNegative(ledger) && vm in ledger
    ensures WithinBounds(host, ledger - {vm})
  {
    SumSplit(ledger, vm);
  }

  lemma StepKeepsBounds(host: Host, ledger: Ledger, event: LedgerEvent)
    requires WithinBounds(host, ledger) && AllNonNegative(ledger)
    requires event.Admit? ==> event.need.NonNegative()
    ensures WithinBounds(host, After(host, ledger, event)) && AllNonNegative(After(host, ledger, event))
  {
    if event.Admit? {
      if event.vm !in ledger && Admissible(host, ledger, event.need) {
        AdmitKeepsBounds(host, ledger, event.vm, event.need);
      }
    } else if event.vm in ledger {
      LeaveKeepsBounds(host, ledger, event.vm);
    } else {
      assert ledger - {event.vm} == ledger;
    }
  }

  lemma EmptyLedgerFits(host: Host)
    ensures WithinBounds(host, map[]) && AllNonNegative(map[])
  {
  }

  /** From an empty or any fitting ledger, however VMs come and go, no more is promised than the host has. */
  lemma {:induction false} NoOvercommit(host: Host, start: Ledger, events: seq<LedgerEvent>)
    requires start == map[] || (WithinBounds(host, start) && AllNonNegative(start))
    requires NonNegativeRequests(events)
    ensures WithinBounds(host, LedgerAfter(host, start, events)) && AllNonNegative(LedgerAfter(host, start, events))
  {
    if events == [] {
      EmptyLedgerFits(host);
    } else {
      NoOvercommit(host, start, events[..|events| - 1]);
      StepKeepsBounds(host, LedgerAfter(host, start, events[..|events| - 1]), events[|events| - 1]);
    }
  }
}
