/** Capacity admission against core pinning: when an admitted VM is sure to get its cores. */
module Admission {
  import opened Results
  import opened Ordered
  import opened CpuList
  import opened Siblings
  import opened CpuMap
  import opened Packages
  import opened Pinning
  import opened Capacity
  import opened Text

  /** The ledger's cpu total is the number of distinct cores in use. */
  ghost predicate CoresMatch(ledger: Ledger, taken: seq<int>) {
    |Members(taken)| == Sum(ledger).cpu
  }

  /** What check_spec leaves of the processors it counts, the pinner has in cores that are not off limits,
      unless nothing is admitted at all. The two counts come from different files. */
  ghost predicate ReservationCovers(host: Host, sys: Sysfs) {
    || host.totalCpu - |Members(host.reservedCores)|
         <= sys.TotalCores() - |HostCores(sys) * OffLimits(sys, host.reservedCores)|
    || |Members(host.reservedCores)| >= host.totalCpu
  }

  /** Every recorded sibling of a reserved core is reserved too. */
  ghost predicate SiblingClosed(sys: Sysfs, reserved: seq<int>) {
    PairsOf(sys).Ok? && forall r :: r in reserved && r in PairsOf(sys).value ==> PairsOf(sys).value[r] in reserved
  }

  lemma SiblingClosedCovers(host: Host, sys: Sysfs)
    requires SiblingClosed(sys, host.reservedCores) && host.totalCpu <= sys.TotalCores()
    ensures ReservationCovers(host, sys)
  {
    NoMembers([]);
    assert OffLimits(sys, host.reservedCores) == Members(host.reservedCores);
    SubsetSize(HostCores(sys) * OffLimits(sys, host.reservedCores), Members(host.reservedCores));
  }

  lemma UnionSize<T>(a: set<T>, b: set<T>)
    ensures |a + b| <= |a| + |b|
  {
    assert a + b == a + (b - a);
    SubsetSize(b - a, b);
  }

  lemma FreeAtLeast(sys: Sysfs, reserved: seq<int>, taken: seq<int>)
    requires PairsOf(sys).Ok?
    ensures |HostCores(sys) - BlockedBy(sys, reserved, taken)|
      >= sys.TotalCores() - |HostCores(sys) * OffLimits(sys, reserved)| - |Members(taken)|
  {
    var all, off, used := HostCores(sys), OffLimits(sys, reserved), Members(taken);
    BlockedUnion(reserved, taken, PairsOf(sys).value);
    IntervalSize(0, sys.TotalCores() - 1);
    var gone := all * (off + used);
    assert all - (off + used) == all - gone;
    SubtractSize(all, gone);
    assert gone <= all * off + used;
    SubsetSize(gone, all * off + used);
    UnionSize(all * off, used);
  }

  /** With a covering reservation, whatever check_spec admits can be pinned. */
  lemma AdmittedIsPinnable(host: Host, sys: Sysfs, ledger: Ledger, taken: seq<int>, need: Allocation)
    requires Readable(sys) && ReservationCovers(host, sys)
    requires CoresMatch(ledger, taken)
    requires need.cpu >= 1 && Admissible(host, ledger, need)
    ensures Allocated(sys, need.cpu, host.reservedCores, taken).Ok?
  {
    FreeAtLeast(sys, host.reservedCores, taken);
    AllocationExact(sys, need.cpu, host.reservedCores, taken);
  }

  /** Without it, a VM that check_spec admits on an idle host cannot be pinned. */
  lemma UncoveredIsUnpinnable(host: Host, sys: Sysfs) returns (need: Allocation)
    requires Readable(sys) && NodesWithinHost(sys) && host.maxVms >= 1
    requires !ReservationCovers(host, sys)
    ensures CoresMatch(map[], []) && need.cpu >= 1 && Admissible(host, map[], need)
    ensures Allocated(sys, need.cpu, host.reservedCores, []).Err?
  {
    need := Allocation(host.totalCpu - |Members(host.reservedCores)|, 0, 0);
    NoMembers([]);
    IdleFree(sys, host.reservedCores);
    AllocationExact(sys, need.cpu, host.reservedCores, []);
    if SomeNodeFits(sys, OffLimits(sys, host.reservedCores), need.cpu) {
      NodeFitWithinHost(sys, OffLimits(sys, host.reservedCores), need.cpu);
    }
  }

  lemma IdleFree(sys: Sysfs, reserved: seq<int>)
    ensures |HostCores(sys) - OffLimits(sys, reserved)|
      == sys.TotalCores() - |HostCores(sys) * OffLimits(sys, reserved)|
  {
    var all, off := HostCores(sys), OffLimits(sys, reserved);
    IntervalSize(0, sys.TotalCores() - 1);
    assert all - off == all - all * off;
    SubtractSize(all, all * off);
  }

  /** The condition is exact: it decides whether admission always implies pinnability. */
  lemma PinnableIffCovered(host: Host, sys: Sysfs)
    requires Readable(sys) && NodesWithinHost(sys) && host.maxVms >= 1
    ensures ReservationCovers(host, sys) <==>
      forall ledger: Ledger, taken: seq<int>, need: Allocation ::
        CoresMatch(ledger, taken) && need.cpu >= 1 && Admissible(host, ledger, need) ==>
          Allocated(sys, need.cpu, host.reservedCores, taken).Ok?
  {
    if ReservationCovers(host, sys) {
      forall ledger: Ledger, taken: seq<int>, need: Allocation
        | CoresMatch(ledger, taken) && need.cpu >= 1 && Admissible(host, ledger, need)
        ensures Allocated(sys, need.cpu, host.reservedCores, taken).Ok?
      {
        AdmittedIsPinnable(host, sys, ledger, taken, need);
      }
    } else {
      var need := UncoveredIsUnpinnable(host, sys);
    }
  }

  // ----- whole runs of the two managers together

  datatype Machine = Machine(ledger: Ledger, held: Held)

  datatype Op = Launch(vm: string, need: Allocation) | Stop(vm: string)

  /** Check, allocate, pin; or release and unpin. */
  ghost function Operate(host: Host, sys: Sysfs, m: Machine, op: Op): Machine {
    match op
    case Launch(vm, need) =>
      if vm in m.ledger || !Admissible(host, m.ledger, need) then m
      else
        var pin := PinFor(sys, host.reservedCores, m.held, need.cpu);
        Machine(m.ledger[vm := need], if pin.Ok? then m.held[vm := pin.value.cpuset] else m.held)
    case Stop(vm) => Machine(m.ledger - {vm}, m.held - {vm})
  }

  ghost function OperateAll(host: Host, sys: Sysfs, ops: seq<Op>): Machine {
    if ops == [] then Machine(map[], map[])
    else Operate(host, sys, OperateAll(host, sys, ops[..|ops| - 1]), ops[|ops| - 1])
  }

  /** Both managers know the same VMs, and each holds as many cores as its entry says. */
  ghost predicate InStep(host: Host, sys: Sysfs, m: Machine) {
    && m.ledger.Keys == m.held.Keys
    && (forall v :: v in m.ledger ==> |CoresIn(m.held[v])| == m.ledger[v].cpu)
    && Isolated(sys, host.reservedCores, m.held)
  }

  lemma StopKeepsStep(host: Host, sys: Sysfs, m: Machine, v: string)
    requires InStep(host, sys, m)
    ensures InStep(host, sys, Machine(m.ledger - {v}, m.held - {v}))
  {
    ServeKeepsIsolation(sys, host.reservedCores, m.held, Give(v));
  }

  lemma LaunchKeepsStep(host: Host, sys: Sysfs, m: Machine, v: string, need: Allocation)
    requires InStep(host, sys, m) && v !in m.ledger
    requires PinFor(sys, host.reservedCores, m.held, need.cpu).Ok?
    ensures var cpuset := PinFor(sys, host.reservedCores, m.held, need.cpu).value.cpuset;
      InStep(host, sys, Machine(m.ledger[v := need], m.held[v := cpuset]))
  {
    PinIsFresh(sys, host.reservedCores, m.held, need.cpu);
    ServeKeepsIsolation(sys, host.reservedCores, m.held, Take(v, need.cpu));
  }

  lemma InUseSize(sys: Sysfs, reserved: seq<int>, held: Held, v: string)
    requires Isolated(sys, reserved, held) && v in held
    ensures |InUse(held)| == |InUse(held - {v})| + |CoresIn(held[v])|
  {
    InUseAfterGive(sys, reserved, held, v);
    HeldInUse(held, v);
    SubtractSize(InUse(held), CoresIn(held[v]));
  }

  lemma {:induction false} SumIsInUse(host: Host, sys: Sysfs, m: Machine)
    requires InStep(host, sys, m)
    ensures Sum(m.ledger).cpu == |InUse(m.held)|
    decreases |m.ledger|
  {
    if m.ledger == map[] {
      assert InUse(m.held) == {};
    } else {
      KeyExists(m.ledger);
      var v :| v in m.ledger;
      SumSplit(m.ledger, v);
      StopKeepsStep(host, sys, m, v);
      SumIsInUse(host, sys, Machine(m.ledger - {v}, m.held - {v}));
      InUseSize(sys, host.reservedCores, m.held, v);
    }
  }

  /** In a consistent state, what check_spec admits gets pinned. */
  lemma InStepPins(host: Host, sys: Sysfs, m: Machine, need: Allocation)
    requires Readable(sys) && ReservationCovers(host, sys)
    requires InStep(host, sys, m)
    requires need.cpu >= 1 && Admissible(host, m.ledger, need)
    ensures PinFor(sys, host.reservedCores, m.held, need.cpu).Ok?
  {
    SumIsInUse(host, sys, m);
    assert Members(Ascending(InUse(m.held))) == InUse(m.held);
    AdmittedIsPinnable(host, sys, m.ledger, Ascending(InUse(m.held)), need);
  }

  lemma OperateKeepsStep(host: Host, sys: Sysfs, m: Machine, op: Op)
    requires Readable(sys) && ReservationCovers(host, sys)
    requires InStep(host, sys, m) && (op.Launch? ==> op.need.cpu >= 1)
    ensures InStep(host, sys, Operate(host, sys, m, op))
  {
    if op.Stop? {
      StopKeepsStep(host, sys, m, op.vm);
    } else if op.vm !in m.ledger && Admissible(host, m.ledger, op.need) {
      InStepPins(host, sys, m, op.need);
      LaunchKeepsStep(host, sys, m, op.vm, op.need);
    }
  }

  ghost predicate PositiveLaunches(ops: seq<Op>) {
    forall i :: 0 <= i < |ops| && ops[i].Launch? ==> ops[i].need.cpu >= 1
  }

  lemma {:induction false} RunInStep(host: Host, sys: Sysfs, ops: seq<Op>)
    requires Readable(sys) && ReservationCovers(host, sys)
    requires PositiveLaunches(ops)
    ensures InStep(host, sys, OperateAll(host, sys, ops))
  {
    if ops != [] {
      RunInStep(host, sys, ops[..|ops| - 1]);
      OperateKeepsStep(host, sys, OperateAll(host, sys, ops[..|ops| - 1]), ops[|ops| - 1]);
    }
  }

  /** Over every run the managers stay in step, and the next admitted VM is always pinned. */
  lemma RunAlwaysPins(host: Host, sys: Sysfs, ops: seq<Op>, need: Allocation)
    requires Readable(sys) && ReservationCovers(host, sys)
    requires PositiveLaunches(ops)
    ensures var m := OperateAll(host, sys, ops);
      && InStep(host, sys, m)
      && (need.cpu >= 1 && Admissible(host, m.ledger, need) ==>
            PinFor(sys, host.reservedCores, m.held, need.cpu).Ok?)
  {
    var m := OperateAll(host, sys, ops);
    RunInStep(host, sys, ops);
    if need.cpu >= 1 && Admissible(host, m.ledger, need) {
      InStepPins(host, sys, m, need);
    }
  }

  // ----- sibling closure is needed

  lemma ParseTwo(a: nat, b: nat)
    requires a + 1 < b
    ensures Parsed(IntText(a) + "," + IntText(b)) == Ok([a, b])
  {
    var cores, first, second := [a, b], Run(a, a), Run(b, b);
    var rs := [first] + [second];
    RunSetAppend([], first);
    RunSetAppend([first], second);
    assert [] + [first] == [first];
    assert RunSet(rs) == Members(cores);
    FormattedCanonical(cores, rs);
    RunTextsAppend([], first);
    RunTextsAppend([first], second);
    assert RunTexts(rs) == [IntText(a)] + [IntText(b)];
    assert Formatted(cores) == IntText(a) + "," + IntText(b);
    RoundTrip(cores);
    AscendingOfMembers(cores);
  }

  const FOUR_CPUS := Sysfs(
    [0, 1, 2, 3], map[0 := "0,2", 1 := "1,3", 2 := "0,2", 3 := "1,3"], map[], CoreFiles(map[], map[]), [])

  lemma SiblingListsNext(sys: Sysfs, ids: seq<nat>, id: nat, list: seq<int>)
    requires SiblingLists(sys, ids).Ok? && id in sys.siblings && Parsed(sys.siblings[id]) == Ok(list)
    ensures SiblingLists(sys, ids + [id]) == Ok(SiblingLists(sys, ids).value + [list])
  {
    assert (ids + [id])[..|ids|] == ids;
  }

  lemma PairTexts()
    ensures Parsed("0,2") == Ok([0, 2]) && Parsed("1,3") == Ok([1, 3])
  {
    ParseTwo(0, 2);
    ParseTwo(1, 3);
    assert IntText(0) + "," + IntText(2) == "0,2";
    assert IntText(1) + "," + IntText(3) == "1,3";
  }

  lemma FourCpuLists(a: seq<int>, b: seq<int>)
    requires a == [0, 2] && b == [1, 3]
    ensures SiblingLists(FOUR_CPUS, FOUR_CPUS.CpuIds()) == Ok([] + [a] + [b] + [a] + [b])
  {
    PairTexts();
    FourSiblingFiles(FOUR_CPUS, a, b);
    FourIds();
  }

  lemma FourIds()
    ensures FOUR_CPUS.CpuIds() == [] + [0] + [1] + [2] + [3]
  {
  }

  lemma FourSiblingFiles(sys: Sysfs, a: seq<int>, b: seq<int>)
    requires {0, 1, 2, 3} <= sys.siblings.Keys
    requires Parsed(sys.siblings[0]) == Parsed(sys.siblings[2]) == Ok(a)
    requires Parsed(sys.siblings[1]) == Parsed(sys.siblings[3]) == Ok(b)
    ensures SiblingLists(sys, [] + [0] + [1] + [2] + [3]) == Ok([] + [a] + [b] + [a] + [b])
  {
    SiblingListsNext(sys, [], 0, a);
    SiblingListsNext(sys, [] + [0], 1, b);
    SiblingListsNext(sys, [] + [0] + [1], 2, a);
    SiblingListsNext(sys, [] + [0] + [1] + [2], 3, b);
  }

  lemma TwoPairs(a: seq<int>, b: seq<int>)
    requires a == [0, 2] && b == [1, 3]
    ensures RecordAll([] + [a] + [b] + [a] + [b]) == map[0 := 2, 2 := 0, 1 := 3, 3 := 1]
  {
    RecordAppend([], a);
    RecordAppend([] + [a], b);
    RecordAppend([] + [a] + [b], a);
    RecordAppend([] + [a] + [b] + [a], b);
  }

  lemma FourCpuPairs()
    ensures PairsOf(FOUR_CPUS) == Ok(map[0 := 2, 2 := 0, 1 := 3, 3 := 1])
  {
    FourCpuLists([0, 2], [1, 3]);
    TwoPairs([0, 2], [1, 3]);
  }

  /** On four cpus in pairs 0-2 and 1-3 with core 0 reserved, two cores remain. */
  lemma TwoCoresRemain(sys: Sysfs)
    requires sys.cpus == [0, 1, 2, 3] && PairsOf(sys) == Ok(map[0 := 2, 2 := 0, 1 := 3, 3 := 1])
    ensures |HostCores(sys) - BlockedBy(sys, [0], [])| == 2
  {
    NoMembers([]);
    assert 0 in [0] && 0 in PairsOf(sys).value;
    assert BlockedBy(sys, [0], []) == {0, 2};
    IntervalSize(0, 3);
    SubtractSize(HostCores(sys), {0, 2});
  }

  lemma ThreeCoresRefused(sys: Sysfs)
    requires sys.cpus == [0, 1, 2, 3] && sys.nodes == map[]
    requires PairsOf(sys) == Ok(map[0 := 2, 2 := 0, 1 := 3, 3 := 1])
    ensures Allocated(sys, 3, [0], []).Err?
  {
    TwoCoresRemain(sys);
    AllocationExact(sys, 3, [0], []);
  }

  lemma ThreeCoresAdmitted()
    ensures Admissible(Host(4, [0], 0, 0, 0, 0, 1), map[], Allocation(3, 0, 0))
  {
    MembersSize([0]);
  }

  /** Core 0 reserved but not its sibling 2: three cores are admitted, only two can be pinned. */
  lemma SiblingClosureNeeded(host: Host, need: Allocation)
    requires host == Host(4, [0], 0, 0, 0, 0, 1) && need == Allocation(3, 0, 0)
    ensures host.totalCpu == FOUR_CPUS.TotalCores() && Readable(FOUR_CPUS)
    ensures !SiblingClosed(FOUR_CPUS, host.reservedCores)
    ensures CoresMatch(map[], []) && Admissible(host, map[], need)
    ensures Allocated(FOUR_CPUS, need.cpu, host.reservedCores, []).Err?
  {
    FourCpuPairs();
    ThreeCoresRefused(FOUR_CPUS);
    ThreeCoresAdmitted();
    SiblingNotReserved(FOUR_CPUS);
    NothingTaken();
  }

  lemma SiblingNotReserved(sys: Sysfs)
    requires PairsOf(sys) == Ok(map[0 := 2, 2 := 0, 1 := 3, 3 := 1])
    ensures !SiblingClosed(sys, [0])
  {
    assert 0 in [0] && 0 in PairsOf(sys).value;
  }

  lemma NothingTaken()
    ensures CoresMatch(map[], [])
  {
    NoMembers([]);
  }

  /** Four processors in /proc/cpuinfo and no readable cpu directory: four cores are admitted, one can be pinned. */
  lemma CountsDiffer(host: Host, sys: Sysfs, files: CoreFiles)
    requires host == Host(4, [], 0, 0, 0, 0, 1) && sys == Sysfs([], map[], map[], files, [])
    ensures Readable(sys) && CoresMatch(map[], []) && Admissible(host, map[], Allocation(4, 0, 0))
    ensures Allocated(sys, 4, host.reservedCores, []).Err?
  {
    NoSiblingFiles(sys, sys.CpuIds());
    AllocationExact(sys, 4, [], []);
    OneCoreAtMost(sys, BlockedBy(sys, [], []));
    NothingTaken();
    FourAdmitted();
  }

  lemma OneCoreAtMost(sys: Sysfs, blocked: set<int>)
    requires sys.TotalCores() == 1
    ensures |HostCores(sys) - blocked| <= 1
  {
    IntervalSize(0, 0);
    SubsetSize(HostCores(sys) - blocked, HostCores(sys));
  }

  lemma FourAdmitted()
    ensures Admissible(Host(4, [], 0, 0, 0, 0, 1), map[], Allocation(4, 0, 0))
  {
    NoMembers([]);
  }
}
