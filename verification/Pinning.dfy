/** What allocate_cores guarantees: for one call, and over whole runs of allocations and releases. */
module Pinning {
  import opened Results
  import opened Ordered
  import opened CpuList
  import opened Siblings
  import opened CpuMap
  import opened Packages
  import Text

  // ----- one call

  /** The cores a cpuset text names; none when it is malformed. */
  ghost function CoresIn(cpuset: string): set<int> {
    if Parsed(cpuset).Ok? then Members(Parsed(cpuset).value) else {}
  }

  ghost predicate Readable(sys: Sysfs) {
    PairsOf(sys).Ok? && NodesReadable(sys)
  }

  /** 0..total_cores-1 */
  ghost function HostCores(sys: Sysfs): set<int> {
    Interval(0, sys.TotalCores() - 1)
  }

  ghost function BlockedBy(sys: Sysfs, reserved: seq<int>, taken: seq<int>): set<int> {
    if PairsOf(sys).Ok? then Blocked(reserved, taken, PairsOf(sys).value) else {}
  }

  /** Node n has at least count cores outside blocked. */
  ghost predicate Fits(sys: Sysfs, n: int, blocked: set<int>, count: nat) {
    n in sys.nodes && |CoresIn(sys.nodes[n]) - blocked| >= count
  }

  ghost predicate SomeNodeFits(sys: Sysfs, blocked: set<int>, count: nat) {
    exists n :: Fits(sys, n, blocked, count)
  }

  /** chosen holds the count smallest elements of free. */
  ghost predicate Lowest(chosen: set<int>, free: set<int>, count: nat) {
    && chosen <= free
    && |chosen| == count
    && forall x, y :: x in chosen && y in free && y !in chosen ==> x < y
  }

  lemma TakeLowest(free: seq<int>, count: nat)
    requires StrictlyAscending(free) && count <= |free|
    ensures Lowest(Members(free[..count]), Members(free), count)
  {
    AscendingOfMembers(free[..count]);
    assert forall i :: 0 <= i < count ==> free[..count][i] == free[i] && free[i] in Members(free[..count]);
    forall x, y | x in Members(free[..count]) && y in Members(free) && y !in Members(free[..count])
      ensures x < y
    {
      var i :| 0 <= i < |free| && free[i] == y;
      var j :| 0 <= j < count && free[..count][j] == x;
    }
  }

  /** s holds the lowest cores of the k-th node, the first of the list that has enough. */
  ghost predicate FirstFitAt(
    nodes: seq<int>, numa: map<int, seq<int>>, blocked: set<int>, count: nat, s: Selection, k: nat)
    requires forall i :: 0 <= i < |nodes| ==> nodes[i] in numa
  {
    && k < |nodes| && s.node == nodes[k]
    && |Members(numa[nodes[k]]) - blocked| >= count
    && Lowest(Members(s.cores), Members(numa[nodes[k]]) - blocked, count)
    && forall i :: 0 <= i < k ==> |Members(numa[nodes[i]]) - blocked| < count
  }

  /** What the node loop finds: the k-th node is the first that fits, or none fits. */
  ghost predicate FitMeans(nodes: seq<int>, numa: map<int, seq<int>>, blocked: set<int>, count: nat, k: nat)
    requires forall i :: 0 <= i < |nodes| ==> nodes[i] in numa
  {
    var fit := FirstFit(nodes, numa, blocked, count);
    if fit.Some? then FirstFitAt(nodes, numa, blocked, count, fit.value, k)
    else forall i :: 0 <= i < |nodes| ==> |Members(numa[nodes[i]]) - blocked| < count
  }

  /** The node loop stops at the first node that fits and takes its lowest cores. */
  lemma {:induction false} FirstFitMeaning(nodes: seq<int>, numa: map<int, seq<int>>, blocked: set<int>, count: nat)
    returns (k: nat)
    requires forall i :: 0 <= i < |nodes| ==> nodes[i] in numa && StrictlyAscending(numa[nodes[i]])
    ensures FitMeans(nodes, numa, blocked, count, k)
  {
    k := 0;
    if nodes != [] {
      AvailableAscending(numa[nodes[0]], blocked);
      if |Members(numa[nodes[0]]) - blocked| >= count {
        HeadFits(nodes, numa, blocked, count);
      } else {
        var j := FirstFitMeaning(nodes[1..], numa, blocked, count);
        FirstFitShift(nodes, numa, blocked, count, j);
        k := j + 1;
      }
    }
  }

  lemma HeadFits(nodes: seq<int>, numa: map<int, seq<int>>, blocked: set<int>, count: nat)
    requires nodes != [] && forall i :: 0 <= i < |nodes| ==> nodes[i] in numa
    requires StrictlyAscending(numa[nodes[0]]) && |Members(numa[nodes[0]]) - blocked| >= count
    ensures FitMeans(nodes, numa, blocked, count, 0)
  {
    var free := Available(numa[nodes[0]], blocked);
    AvailableAscending(numa[nodes[0]], blocked);
    TakeLowest(free, count);
    assert FirstFit(nodes, numa, blocked, count) == Some(Selection(free[..count], nodes[0]));
  }

  lemma FirstFitShift(nodes: seq<int>, numa: map<int, seq<int>>, blocked: set<int>, count: nat, k: nat)
    requires nodes != []
    requires forall i :: 0 <= i < |nodes| ==> nodes[i] in numa
    requires FitMeans(nodes[1..], numa, blocked, count, k)
    requires |Available(numa[nodes[0]], blocked)| < count && |Members(numa[nodes[0]]) - blocked| < count
    ensures FitMeans(nodes, numa, blocked, count, k + 1)
  {
    var rest := nodes[1..];
    var fit := FirstFit(rest, numa, blocked, count);
    assert fit == FirstFit(nodes, numa, blocked, count);
    forall i | 0 <= i < if fit.Some? then k + 1 else |nodes| ensures |Members(numa[nodes[i]]) - blocked| < count {
      if i > 0 {
        assert rest[i - 1] == nodes[i] && |Members(numa[rest[i - 1]]) - blocked| < count;
      }
    }
  }

  // The exact outcome of a call: which requests succeed, on which node, with which cores.

  ghost predicate BestNode(sys: Sysfs, blocked: set<int>, count: nat, n: int) {
    Fits(sys, n, blocked, count) && forall m :: Fits(sys, m, blocked, count) ==> n <= m
  }

  ghost predicate RightSelection(sys: Sysfs, blocked: set<int>, count: nat, node: int, chosen: set<int>) {
    if SomeNodeFits(sys, blocked, count)
    then BestNode(sys, blocked, count, node) && Lowest(chosen, CoresIn(sys.nodes[node]) - blocked, count)
    else node == 0 && Lowest(chosen, HostCores(sys) - blocked, count)
  }

  lemma NoneFits(sys: Sysfs, blocked: set<int>, count: nat)
    requires forall i :: 0 <= i < |Ascending(sys.nodes.Keys)| ==>
      !Fits(sys, Ascending(sys.nodes.Keys)[i], blocked, count)
    ensures !SomeNodeFits(sys, blocked, count)
  {
    forall m | m in sys.nodes ensures !Fits(sys, m, blocked, count) {
      var i := PositionOf(sys.nodes.Keys, m);
    }
  }

  lemma AscendingOrder(s: seq<int>, k: nat, i: nat)
    requires StrictlyAscending(s) && k <= i < |s|
    ensures s[k] <= s[i]
  {
  }

  lemma FirstIsBest(sys: Sysfs, blocked: set<int>, count: nat, k: nat)
    requires k < |Ascending(sys.nodes.Keys)| && Fits(sys, Ascending(sys.nodes.Keys)[k], blocked, count)
    requires forall i :: 0 <= i < k ==> !Fits(sys, Ascending(sys.nodes.Keys)[i], blocked, count)
    ensures BestNode(sys, blocked, count, Ascending(sys.nodes.Keys)[k])
  {
    forall m | Fits(sys, m, blocked, count) ensures Ascending(sys.nodes.Keys)[k] <= m {
      var i := PositionOf(sys.nodes.Keys, m);
      assert k <= i;
      AscendingOrder(Ascending(sys.nodes.Keys), k, i);
    }
  }

  lemma NodeFits(sys: Sysfs, blocked: set<int>, count: nat, n: int)
    requires NodesReadable(sys) && n in sys.nodes
    ensures Fits(sys, n, blocked, count) <==> |Members(NumaCores(sys).value[n]) - blocked| >= count
    ensures CoresIn(sys.nodes[n]) == Members(NumaCores(sys).value[n])
  {
  }

  lemma SelectOnNodes(sys: Sysfs, blocked: set<int>, count: nat)
    requires NodesReadable(sys) && sys.nodes != map[]
    ensures var fit := NodeFit(NumaCores(sys).value, blocked, count);
      && (fit.Some? <==> SomeNodeFits(sys, blocked, count))
      && (fit.Some? ==> RightSelection(sys, blocked, count, fit.value.node, Members(fit.value.cores)))
  {
    var numa := NumaCores(sys).value;
    assert numa.Keys == sys.nodes.Keys;
    var nodes := Ascending(numa.Keys);
    AscendingAt(numa.Keys);
    var k := FirstFitMeaning(nodes, numa, blocked, count);
    forall i | 0 <= i < |nodes| {
      NodeFits(sys, blocked, count, nodes[i]);
    }
    if FirstFit(nodes, numa, blocked, count).Some? {
      FirstIsBest(sys, blocked, count, k);
    } else {
      NoneFits(sys, blocked, count);
    }
  }

  lemma OnlyNodeFit(cores: seq<int>, blocked: set<int>, count: nat)
    ensures var free := Available(cores, blocked);
      NodeFit(map[0 := cores], blocked, count) ==
        if |free| >= count then Some(Selection(free[..count], 0)) else None
  {
    var numa: map<int, seq<int>> := map[0 := cores];
    AscendingOfMembers([0]);
    assert numa.Keys == Members([0]);
    var nodes: seq<int> := [0];
    assert Ascending(numa.Keys) == nodes && nodes[1..] == [];
    assert numa[nodes[0]] == cores;
    assert FirstFit(nodes[1..], numa, blocked, count) == None;
    assert FirstFit(nodes, numa, blocked, count) == NodeFit(numa, blocked, count);
  }

  lemma FallbackMeaning(sys: Sysfs, blocked: set<int>, count: nat)
    ensures var fallback := Available(Range(0, sys.TotalCores()), blocked);
      && |fallback| == |HostCores(sys) - blocked|
      && (|fallback| >= count ==> Lowest(Members(fallback[..count]), HostCores(sys) - blocked, count))
  {
    var whole := Range(0, sys.TotalCores());
    assert Members(whole) == HostCores(sys);
    AvailableAscending(whole, blocked);
    if |Available(whole, blocked)| >= count {
      TakeLowest(Available(whole, blocked), count);
    }
  }

  lemma SelectMeaning(sys: Sysfs, blocked: set<int>, count: nat)
    requires NodesReadable(sys)
    ensures var s := Select(NumaCores(sys).value, sys.TotalCores(), blocked, count);
      && (s.Some? <==> SomeNodeFits(sys, blocked, count) || |HostCores(sys) - blocked| >= count)
      && (s.Some? ==> RightSelection(sys, blocked, count, s.value.node, Members(s.value.cores)))
  {
    FallbackMeaning(sys, blocked, count);
    if sys.nodes == map[] {
      assert NumaCores(sys).value == map[];
      assert !SomeNodeFits(sys, blocked, count);
      OnlyNodeFit(Range(0, sys.TotalCores()), blocked, count);
    } else {
      assert NumaCores(sys).value.Keys == sys.nodes.Keys;
      SelectOnNodes(sys, blocked, count);
    }
  }

  ghost predicate Satisfiable(sys: Sysfs, blocked: set<int>, count: int) {
    && count > 0
    && Readable(sys)
    && (SomeNodeFits(sys, blocked, count) || |HostCores(sys) - blocked| >= count)
  }

  /** Which calls succeed and exactly what they return; every other call raises ValueError. */
  lemma AllocationExact(sys: Sysfs, count: int, reserved: seq<int>, taken: seq<int>)
    ensures var r, blocked := Allocated(sys, count, reserved, taken), BlockedBy(sys, reserved, taken);
      && (r.Ok? <==> Satisfiable(sys, blocked, count))
      && (r.Err? ==> r.error == ValueError)
      && (r.Ok? ==> Parsed(r.value.cpuset).Ok?)
      && (r.Ok? ==> RightSelection(sys, blocked, count, r.value.node, CoresIn(r.value.cpuset)))
  {
    PairsOfError(sys);
    if count > 0 && Readable(sys) {
      var blocked := BlockedBy(sys, reserved, taken);
      SelectMeaning(sys, blocked, count);
      var s := Select(NumaCores(sys).value, sys.TotalCores(), blocked, count);
      if s.Some? {
        SelectionNatural(sys, blocked, count, s.value.node, Members(s.value.cores));
        PrintedSelection(s.value.cores);
      }
    }
  }

  lemma PairsOfError(sys: Sysfs)
    ensures PairsOf(sys).Err? ==> PairsOf(sys).error == ValueError
  {
    SiblingListsError(sys, sys.CpuIds());
  }

  lemma {:induction false} SiblingListsError(sys: Sysfs, ids: seq<nat>)
    ensures SiblingLists(sys, ids).Err? ==> SiblingLists(sys, ids).error == ValueError
  {
    if ids != [] {
      SiblingListsError(sys, ids[..|ids| - 1]);
      var id := ids[|ids| - 1];
      if id in sys.siblings {
        CoresOfMeaning(Text.Split(sys.siblings[id], ','));
      }
    }
  }

  lemma SelectionNatural(sys: Sysfs, blocked: set<int>, count: nat, node: int, chosen: set<int>)
    requires NodesReadable(sys) && RightSelection(sys, blocked, count, node, chosen)
    ensures forall c :: c in chosen ==> c >= 0
  {
    if SomeNodeFits(sys, blocked, count) {
      CoresOfMeaning(Text.Split(sys.nodes[node], ','));
    }
  }

  lemma PrintedSelection(cores: seq<int>)
    requires forall c :: c in Members(cores) ==> c >= 0
    ensures Parsed(Formatted(cores)).Ok? && CoresIn(Formatted(cores)) == Members(cores)
  {
    assert forall c :: c in cores ==> c in Members(cores);
    RoundTrip(cores);
  }

  /** Blocking fewer cores, or asking for fewer, never turns success into failure. */
  lemma AllocationMonotone(
    sys: Sysfs, count: int, reserved: seq<int>, taken: seq<int>, count': int, reserved': seq<int>, taken': seq<int>)
    requires Allocated(sys, count, reserved, taken).Ok?
    requires 0 < count' <= count
    requires Members(reserved') <= Members(reserved) && Members(taken') <= Members(taken)
    ensures Allocated(sys, count', reserved', taken').Ok?
  {
    AllocationExact(sys, count, reserved, taken);
    AllocationExact(sys, count', reserved', taken');
    var blocked, blocked' := BlockedBy(sys, reserved, taken), BlockedBy(sys, reserved', taken');
    assert forall r :: r in reserved' ==> r in Members(reserved');
    assert blocked' <= blocked;
    if SomeNodeFits(sys, blocked, count) {
      var n :| Fits(sys, n, blocked, count);
      SubsetSize(CoresIn(sys.nodes[n]) - blocked, CoresIn(sys.nodes[n]) - blocked');
      assert Fits(sys, n, blocked', count');
    } else {
      SubsetSize(HostCores(sys) - blocked, HostCores(sys) - blocked');
    }
  }

  /** The cores handed out are count many, unblocked, and not recorded as siblings of reserved cores. */
  lemma AllocationAvoidsReserved(sys: Sysfs, count: int, reserved: seq<int>, taken: seq<int>, c: int, r: int)
    requires Allocated(sys, count, reserved, taken).Ok?
    requires c in CoresIn(Allocated(sys, count, reserved, taken).value.cpuset) && r in reserved
    ensures |CoresIn(Allocated(sys, count, reserved, taken).value.cpuset)| == count
    ensures c !in taken && c != r
    ensures var pairs := PairsOf(sys).value;
      && (r in pairs ==> pairs[r] != c)
      && (Symmetric(pairs) ==> c in pairs ==> pairs[c] != r)
  {
    AllocationExact(sys, count, reserved, taken);
    var blocked := BlockedBy(sys, reserved, taken);
    assert c !in blocked;
    assert c in taken ==> c in Members(taken);
  }

  /** What a call keeps off: reserved cores, taken ones, and the recorded siblings of reserved ones. */
  lemma BlockedMeaning(sys: Sysfs, reserved: seq<int>, taken: seq<int>, c: int)
    requires PairsOf(sys).Ok?
    ensures var pairs := PairsOf(sys).value;
      c in BlockedBy(sys, reserved, taken) <==>
        c in reserved || c in taken || exists r :: r in reserved && r in pairs && pairs[r] == c
  {
    var pairs := PairsOf(sys).value;
    forall r | r in reserved && r in pairs && pairs[r] == c ensures c in SiblingsIn(reserved, pairs) {}
  }

  /** What a reported topology says about the sibling files: both cores of a listed pair are recorded, each with
      its companion in the last file naming it, hence with each other when no core is in two pairs. */
  lemma ReportedPairs(sys: Sysfs, i: nat, c: int, d: int)
    requires Readable(sys) && i < |sys.CpuIds()| && FileNames(sys, sys.CpuIds()[i], c, d)
    ensures TopologyOf(sys).Ok?
    ensures var pairs := TopologyOf(sys).value.hyperthreadPairs;
      && c in pairs && d in pairs
      && (NoneAfter(sys, sys.CpuIds(), i, c) ==> pairs[c] == d)
      && (FilesPaired(sys) ==> pairs[c] == d && pairs[d] == c)
  {
    var ids, pairs := sys.CpuIds(), PairsOf(sys).value;
    assert FileNames(sys, ids[i], d, c);
    NamedIsRecorded(sys, ids, i, c, d);
    NamedIsRecorded(sys, ids, i, d, c);
    if NoneAfter(sys, ids, i, c) {
      LastFileDecides(sys, ids, i, c, d);
    }
    if FilesPaired(sys) {
      var j := RecordedFromFile(sys, ids, c);
      var k := RecordedFromFile(sys, ids, d);
      assert ids[i] in ids && ids[j] in ids && ids[k] in ids;
    }
  }

  /** Nothing else is recorded. */
  lemma ReportedFromFile(sys: Sysfs, c: int) returns (i: nat)
    requires TopologyOf(sys).Ok? && c in TopologyOf(sys).value.hyperthreadPairs
    ensures i < |sys.CpuIds()| && NoneAfter(sys, sys.CpuIds(), i, c)
    ensures FileNames(sys, sys.CpuIds()[i], c, TopologyOf(sys).value.hyperthreadPairs[c])
  {
    i := RecordedFromFile(sys, sys.CpuIds(), c);
  }

  /** On hosts whose sibling files pair the cores off, no core handed out shares a file with a reserved one. */
  lemma PairedHostAvoidsReserved(
    sys: Sysfs, count: int, reserved: seq<int>, taken: seq<int>, c: int, r: int, id: nat)
    requires Allocated(sys, count, reserved, taken).Ok?
    requires c in CoresIn(Allocated(sys, count, reserved, taken).value.cpuset) && r in reserved
    requires FilesPaired(sys)
    ensures c != r && (id in sys.CpuIds() ==> !FileNames(sys, id, r, c))
    ensures var pairs := PairsOf(sys).value;
      (r in pairs ==> pairs[r] != c) && (c in pairs ==> pairs[c] != r && pairs[c] != c)
  {
    var pairs := PairsOf(sys).value;
    AllocationExact(sys, count, reserved, taken);
    AllocationAvoidsReserved(sys, count, reserved, taken, c, r);
    if id in sys.CpuIds() && FileNames(sys, id, r, c) {
      var i :| 0 <= i < |sys.CpuIds()| && sys.CpuIds()[i] == id;
      ReportedPairs(sys, i, r, c);
    }
    if c in pairs {
      OtherCore(sys, c);
      var j := RecordedFromFile(sys, sys.CpuIds(), c);
      ReportedPairs(sys, j, c, pairs[c]);
    }
  }

  // ----- the topology a host reports

  function SumOf(sizes: seq<nat>): nat {
    if sizes == [] then 0 else SumOf(sizes[..|sizes| - 1]) + sizes[|sizes| - 1]
  }

  /** The nodes share out 0..total_cores-1 among themselves. */
  ghost predicate NodesPartition(sys: Sysfs) {
    && sys.nodes != map[]
    && NodesWithinHost(sys)
    && NodesDisjoint(sys)
    && (forall c :: c in HostCores(sys) ==> exists n :: n in sys.nodes && c in CoresIn(sys.nodes[n]))
  }

  ghost function CoresOfNodes(sys: Sysfs, nodes: seq<int>): set<int>
    requires forall i :: 0 <= i < |nodes| ==> nodes[i] in sys.nodes
  {
    if nodes == [] then {}
    else CoresOfNodes(sys, nodes[..|nodes| - 1]) + CoresIn(sys.nodes[nodes[|nodes| - 1]])
  }

  lemma NodeSize(sys: Sysfs, n: int)
    requires NodesReadable(sys) && n in sys.nodes
    ensures |NumaCores(sys).value[n]| == |CoresIn(sys.nodes[n])|
  {
    ParsedShape(sys.nodes[n]);
    MembersSize(Parsed(sys.nodes[n]).value);
  }

  lemma {:induction false} NodeSizesSum(sys: Sysfs, nodes: seq<int>)
    requires NodesReadable(sys) && NodesDisjoint(sys) && StrictlyAscending(nodes)
    requires forall i :: 0 <= i < |nodes| ==> nodes[i] in sys.nodes
    ensures SumOf(NodeSizes(NumaCores(sys).value, nodes)) == |CoresOfNodes(sys, nodes)|
  {
    if nodes != [] {
      var front, last := nodes[..|nodes| - 1], nodes[|nodes| - 1];
      NodeSizesSum(sys, front);
      NodeSize(sys, last);
      var sizes := NodeSizes(NumaCores(sys).value, nodes);
      assert sizes[..|nodes| - 1] == NodeSizes(NumaCores(sys).value, front);
      OtherNodeDisjoint(sys, front, last);
    }
  }

  ghost predicate NodesDisjoint(sys: Sysfs) {
    forall m, n :: m in sys.nodes && n in sys.nodes && m != n ==> CoresIn(sys.nodes[m]) !! CoresIn(sys.nodes[n])
  }

  lemma {:induction false} OtherNodeDisjoint(sys: Sysfs, nodes: seq<int>, n: int)
    requires NodesDisjoint(sys) && n in sys.nodes
    requires forall i :: 0 <= i < |nodes| ==> nodes[i] in sys.nodes && nodes[i] != n
    ensures CoresOfNodes(sys, nodes) !! CoresIn(sys.nodes[n])
  {
    if nodes != [] {
      OtherNodeDisjoint(sys, nodes[..|nodes| - 1], n);
    }
  }

  lemma {:induction false} NodeInUnion(sys: Sysfs, nodes: seq<int>, i: nat)
    requires forall j :: 0 <= j < |nodes| ==> nodes[j] in sys.nodes
    requires i < |nodes|
    ensures CoresIn(sys.nodes[nodes[i]]) <= CoresOfNodes(sys, nodes)
  {
    if i < |nodes| - 1 {
      NodeInUnion(sys, nodes[..|nodes| - 1], i);
    }
  }

  lemma {:induction false} UnionWithinHost(sys: Sysfs, nodes: seq<int>)
    requires NodesWithinHost(sys)
    requires forall j :: 0 <= j < |nodes| ==> nodes[j] in sys.nodes
    ensures CoresOfNodes(sys, nodes) <= HostCores(sys)
  {
    if nodes != [] {
      var last := nodes[|nodes| - 1];
      UnionWithinHost(sys, nodes[..|nodes| - 1]);
      assert last in sys.nodes && CoresIn(sys.nodes[last]) <= HostCores(sys);
    }
  }

  /** A topology is reported for readable hosts only; its node sizes are those of the nodes in id order,
      and add up to total_cores when the nodes partition the cores. */
  lemma TopologyMeaning(sys: Sysfs)
    ensures TopologyOf(sys).Ok? <==> Readable(sys)
    ensures TopologyOf(sys).Ok? ==>
      var t := TopologyOf(sys).value;
      t.totalCores == |HostCores(sys)| && t.hyperthreadPairs == PairsOf(sys).value && |t.coresPerNuma| == t.numaNodes
      && 1 <= t.coresPerSocket <= t.totalCores
    ensures TopologyOf(sys).Ok? && (sys.nodes == map[] || NodesPartition(sys)) ==>
      TopologyOf(sys).value.numaNodes > 0
      && SumOf(TopologyOf(sys).value.coresPerNuma) == TopologyOf(sys).value.totalCores
  {
    IntervalSize(0, sys.TotalCores() - 1);
    CoresPerSocketMeaning(sys.coreFiles, sys.CpuIds());
    if Readable(sys) {
      var numa := NumaCores(sys).value;
      assert numa.Keys == sys.nodes.Keys;
      KeysSize(numa);
      var whole: seq<nat> := [sys.TotalCores()];
      assert whole[..0] == [];
      if NodesPartition(sys) {
        var nodes := Ascending(numa.Keys);
        AscendingAt(numa.Keys);
        NodeSizesSum(sys, nodes);
        NodesCoverHost(sys, nodes);
      }
    }
  }

  /** Which hosts can be read, and the reported fields that no allocation depends on. */
  lemma TopologyFromFiles(sys: Sysfs)
    ensures TopologyOf(sys).Ok? <==>
      && (forall id :: id in sys.CpuIds() && id in sys.siblings ==> Parsed(sys.siblings[id]).Ok?)
      && forall n :: n in sys.nodes ==> Parsed(sys.nodes[n]).Ok?
    ensures TopologyOf(sys).Err? ==> TopologyOf(sys).error == ValueError
    ensures sys.CpuIds() == if sys.cpus == [] then [0] else sys.cpus
    ensures TopologyOf(sys).Ok? ==>
      var t := TopologyOf(sys).value;
      && t.totalCores == |sys.CpuIds()|
      && t.coresPerSocket == CoresPerSocket(sys.coreFiles, sys.CpuIds())
      && (t.nestedVirtualization <==> exists i :: 0 <= i < |sys.kvm| && SaysYes(sys.kvm[i]))
  {
    AllFilesParse(sys, sys.CpuIds());
    PairsOfError(sys);
  }

  /** The node sizes are reported in increasing order of the node ids. */
  lemma TopologyNodes(sys: Sysfs)
    requires TopologyOf(sys).Ok?
    ensures NodesInOrder(sys, TopologyOf(sys).value.coresPerNuma)
  {
    if sys.nodes != map[] {
      var nodes := Ascending(sys.nodes.Keys);
      assert NumaCores(sys).value.Keys == sys.nodes.Keys;
      AscendingAt(sys.nodes.Keys);
      forall i | 0 <= i < |nodes| {
        NodeSize(sys, nodes[i]);
      }
    }
  }

  /** One size for each node in increasing order of their ids, or the whole host if there is none. */
  ghost predicate NodesInOrder(sys: Sysfs, sizes: seq<nat>) {
    if sys.nodes == map[] then sizes == [|sys.CpuIds()|]
    else
      exists nodes ::
        && StrictlyAscending(nodes) && Members(nodes) == sys.nodes.Keys && |nodes| == |sizes|
        && forall i :: 0 <= i < |nodes| ==> nodes[i] in sys.nodes && sizes[i] == |CoresIn(sys.nodes[nodes[i]])|
  }

  lemma KeysSize(numa: map<int, seq<int>>)
    ensures |Ascending(numa.Keys)| == |numa|
  {
    AscendingOfMembers(Ascending(numa.Keys));
  }

  lemma NodesCoverHost(sys: Sysfs, nodes: seq<int>)
    requires NodesPartition(sys) && nodes == Ascending(sys.nodes.Keys)
    requires forall i :: 0 <= i < |nodes| ==> nodes[i] in sys.nodes
    ensures CoresOfNodes(sys, nodes) == HostCores(sys)
  {
    UnionWithinHost(sys, nodes);
    forall c | c in HostCores(sys) ensures c in CoresOfNodes(sys, nodes) {
      var n :| n in sys.nodes && c in CoresIn(sys.nodes[n]);
      var i := PositionOf(sys.nodes.Keys, n);
      NodeInUnion(sys, nodes, i);
    }
  }

  // ----- whether the cores handed out exist

  ghost predicate ExistingOnly(sys: Sysfs, count: int, reserved: seq<int>, taken: seq<int>) {
    var r := Allocated(sys, count, reserved, taken);
    r.Ok? ==> CoresIn(r.value.cpuset) <= Members(sys.CpuIds())
  }

  /** 0..total_cores-1 and every core a node lists are among the cpu ids. */
  ghost predicate IdsCover(sys: Sysfs) {
    && HostCores(sys) <= Members(sys.CpuIds())
    && forall n :: n in sys.nodes ==> CoresIn(sys.nodes[n]) <= Members(sys.CpuIds())
  }

  /** All cores an allocation can pick from. */
  ghost function Pool(sys: Sysfs): set<int> {
    AscendingAt(sys.nodes.Keys);
    HostCores(sys) + CoresOfNodes(sys, Ascending(sys.nodes.Keys))
  }

  lemma NodeInPool(sys: Sysfs, n: int)
    requires n in sys.nodes
    ensures CoresIn(sys.nodes[n]) <= Pool(sys)
  {
    AscendingAt(sys.nodes.Keys);
    var i := PositionOf(sys.nodes.Keys, n);
    NodeInUnion(sys, Ascending(sys.nodes.Keys), i);
  }

  lemma {:induction false} UnionMember(sys: Sysfs, nodes: seq<int>, x: int) returns (n: int)
    requires forall i :: 0 <= i < |nodes| ==> nodes[i] in sys.nodes
    requires x in CoresOfNodes(sys, nodes)
    ensures n in sys.nodes && x in CoresIn(sys.nodes[n])
  {
    n := nodes[|nodes| - 1];
    if x !in CoresIn(sys.nodes[n]) {
      n := UnionMember(sys, nodes[..|nodes| - 1], x);
    }
  }

  lemma OneLeft(s: set<int>, blocked: set<int>, x: int)
    requires x in s && x !in blocked && s - {x} <= blocked
    ensures s - blocked == {x} && |s - blocked| == 1
  {
    assert s - blocked == {x};
  }

  lemma OnlyTakenBlocked(sys: Sysfs, blocked: set<int>)
    requires PairsOf(sys).Ok?
    ensures BlockedBy(sys, [], Ascending(blocked)) == blocked
  {
    NoMembers([]);
    assert Members(Ascending(blocked)) == blocked;
  }

  /** With every core but one blocked, asking for one core yields that core. */
  lemma CoreLeftGiven(sys: Sysfs, reserved: seq<int>, taken: seq<int>, x: int)
    requires Readable(sys) && x in Pool(sys)
    requires x !in BlockedBy(sys, reserved, taken) && Pool(sys) - {x} <= BlockedBy(sys, reserved, taken)
    ensures var r := Allocated(sys, 1, reserved, taken);
      r.Ok? && CoresIn(r.value.cpuset) == {x}
  {
    var blocked := BlockedBy(sys, reserved, taken);
    AllocationExact(sys, 1, reserved, taken);
    if x in HostCores(sys) {
      OneLeft(HostCores(sys), blocked, x);
    } else {
      AscendingAt(sys.nodes.Keys);
      var n := UnionMember(sys, Ascending(sys.nodes.Keys), x);
      NodeInPool(sys, n);
      OneLeft(CoresIn(sys.nodes[n]), blocked, x);
      assert Fits(sys, n, blocked, 1);
    }
    OnlyCoreChosen(sys, blocked, x, Allocated(sys, 1, reserved, taken).value);
  }

  lemma OnlyCoreChosen(sys: Sysfs, blocked: set<int>, x: int, pin: Pin)
    requires x !in blocked && Pool(sys) - {x} <= blocked
    requires RightSelection(sys, blocked, 1, pin.node, CoresIn(pin.cpuset))
    ensures CoresIn(pin.cpuset) == {x}
  {
    var chosen := CoresIn(pin.cpuset);
    if SomeNodeFits(sys, blocked, 1) {
      NodeInPool(sys, pin.node);
    }
    assert chosen <= {x};
    assert chosen != {};
  }

  lemma CoveredGivesExisting(sys: Sysfs, count: int, reserved: seq<int>, taken: seq<int>)
    requires IdsCover(sys)
    ensures ExistingOnly(sys, count, reserved, taken)
  {
    AllocationExact(sys, count, reserved, taken);
  }

  /** allocate_cores hands out only cores the host has exactly when its cpu ids cover the range
      0..total_cores-1 and the node lists. */
  lemma ExistingIffCovered(sys: Sysfs)
    requires Readable(sys)
    ensures (forall count, reserved, taken :: ExistingOnly(sys, count, reserved, taken)) <==> IdsCover(sys)
  {
    if IdsCover(sys) {
      forall count, reserved, taken ensures ExistingOnly(sys, count, reserved, taken) {
        CoveredGivesExisting(sys, count, reserved, taken);
      }
    }
    if forall count, reserved, taken :: ExistingOnly(sys, count, reserved, taken) {
      forall x | x in Pool(sys) ensures x in Members(sys.CpuIds()) {
        OnlyTakenBlocked(sys, Pool(sys) - {x});
        CoreLeftGiven(sys, [], Ascending(Pool(sys) - {x}), x);
        assert ExistingOnly(sys, 1, [], Ascending(Pool(sys) - {x}));
      }
      forall n | n in sys.nodes ensures CoresIn(sys.nodes[n]) <= Members(sys.CpuIds()) {
        NodeInPool(sys, n);
      }
    }
  }

  // ----- siblings in the reverse direction

  /** No core handed out has a reserved core as its recorded sibling. */
  ghost predicate SiblingsSpared(sys: Sysfs, count: int, reserved: seq<int>, taken: seq<int>)
    requires PairsOf(sys).Ok?
  {
    var r, pairs := Allocated(sys, count, reserved, taken), PairsOf(sys).value;
    r.Ok? ==> forall c :: c in CoresIn(r.value.cpuset) && c in pairs ==> pairs[c] !in reserved
  }

  /** Every core that can be handed out is recorded as its sibling's sibling. */
  ghost predicate PoolSymmetric(sys: Sysfs)
    requires PairsOf(sys).Ok?
  {
    var pairs := PairsOf(sys).value;
    forall c :: c in Pool(sys) && c in pairs ==> pairs[c] in pairs && pairs[pairs[c]] == c
  }

  lemma GivenFromPool(sys: Sysfs, count: int, reserved: seq<int>, taken: seq<int>)
    requires Allocated(sys, count, reserved, taken).Ok?
    ensures CoresIn(Allocated(sys, count, reserved, taken).value.cpuset) <= Pool(sys)
    ensures CoresIn(Allocated(sys, count, reserved, taken).value.cpuset) !! BlockedBy(sys, reserved, taken)
  {
    AllocationExact(sys, count, reserved, taken);
    var pin := Allocated(sys, count, reserved, taken).value;
    if SomeNodeFits(sys, BlockedBy(sys, reserved, taken), count) {
      NodeInPool(sys, pin.node);
    }
  }

  lemma BackIsBlocked(pairs: map<int, int>, reserved: seq<int>, taken: seq<int>, c: int)
    requires c in pairs && pairs[c] in pairs && pairs[pairs[c]] == c
    ensures pairs[c] in reserved ==> c in Blocked(reserved, taken, pairs)
  {
    var r := pairs[c];
    if r in reserved {
      assert pairs[r] in SiblingsIn(reserved, pairs);
    }
  }

  lemma SymmetricPoolSpares(sys: Sysfs, count: int, reserved: seq<int>, taken: seq<int>)
    requires Readable(sys) && PoolSymmetric(sys)
    ensures SiblingsSpared(sys, count, reserved, taken)
  {
    var r, pairs := Allocated(sys, count, reserved, taken), PairsOf(sys).value;
    if r.Ok? {
      GivenFromPool(sys, count, reserved, taken);
      forall c | c in CoresIn(r.value.cpuset) && c in pairs ensures pairs[c] !in reserved {
        BackIsBlocked(pairs, reserved, taken, c);
      }
    }
  }

  /** If c is not its sibling's sibling, reserving the sibling and taking all else leaves c to be handed out. */
  lemma UnsettledCoreGiven(sys: Sysfs, c: int)
    requires Readable(sys) && c in Pool(sys) && c in PairsOf(sys).value
    requires var pairs := PairsOf(sys).value;
      pairs[c] in pairs ==> pairs[pairs[c]] != c
    ensures !SiblingsSpared(sys, 1, [PairsOf(sys).value[c]], Ascending(Pool(sys) - {c}))
  {
    var pairs := PairsOf(sys).value;
    var reserved, taken := [pairs[c]], Ascending(Pool(sys) - {c});
    OtherCore(sys, c);
    BlockedUnion(reserved, taken, pairs);
    assert Members(taken) == Pool(sys) - {c};
    assert c !in BlockedBy(sys, reserved, taken);
    assert Pool(sys) - {c} <= BlockedBy(sys, reserved, taken);
    CoreLeftGiven(sys, reserved, taken, c);
    assert pairs[c] in reserved;
  }

  lemma OtherCore(sys: Sysfs, c: int)
    requires PairsOf(sys).Ok? && c in PairsOf(sys).value
    ensures PairsOf(sys).value[c] != c
  {
    var lists := SiblingLists(sys, sys.CpuIds()).value;
    SiblingListsAscending(sys, sys.CpuIds());
    assert forall i :: 0 <= i < |lists| ==> lists[i] in lists;
    NeverOwnSibling(lists);
  }

  /** No core handed out is paired with a reserved one, whatever is reserved and taken,
      exactly when the recorded map leads back from the sibling of every core that can be handed out. */
  lemma SparedIffSymmetric(sys: Sysfs)
    requires Readable(sys)
    ensures (forall count, reserved, taken :: SiblingsSpared(sys, count, reserved, taken)) <==> PoolSymmetric(sys)
  {
    if PoolSymmetric(sys) {
      forall count, reserved, taken ensures SiblingsSpared(sys, count, reserved, taken) {
        SymmetricPoolSpares(sys, count, reserved, taken);
      }
    } else {
      var pairs := PairsOf(sys).value;
      var c :| c in Pool(sys) && c in pairs && !(pairs[c] in pairs && pairs[pairs[c]] == c);
      UnsettledCoreGiven(sys, c);
    }
  }

  /** With a gap in the cpu ids the fallback can hand out a core the host does not have. */
  lemma SparseCpuIds(sys: Sysfs, files: CoreFiles)
    requires sys == Sysfs([0, 2], map[], map[], files, [])
    ensures Allocated(sys, 2, [], []).Ok? && 1 !in sys.CpuIds()
    ensures CoresIn(Allocated(sys, 2, [], []).value.cpuset) == {0, 1}
  {
    NoSiblingFiles(sys, sys.CpuIds());
    NothingBlocked(sys, files);
    AllocationExact(sys, 2, [], []);
    WholeSet(CoresIn(Allocated(sys, 2, [], []).value.cpuset));
  }

  lemma NothingBlocked(sys: Sysfs, files: CoreFiles)
    requires sys == Sysfs([0, 2], map[], map[], files, [])
    ensures HostCores(sys) - BlockedBy(sys, [], []) == Interval(0, 1)
    ensures |Interval(0, 1)| == 2
  {
    NoMembers([]);
    IntervalSize(0, 1);
  }

  lemma WholeSet(chosen: set<int>)
    requires Lowest(chosen, Interval(0, 1), 2)
    ensures chosen == {0, 1}
  {
    IntervalSize(0, 1);
    SubtractSize(Interval(0, 1), chosen);
    assert Interval(0, 1) - chosen == {};
    assert chosen == Interval(0, 1);
  }

  lemma {:induction false} NoSiblingFiles(sys: Sysfs, ids: seq<nat>)
    requires sys.siblings == map[]
    ensures SiblingLists(sys, ids) == Ok([])
  {
    if ids != [] {
      NoSiblingFiles(sys, ids[..|ids| - 1]);
    }
  }

  // ----- runs

  /** The caller's record of pinned VMs: their cpuset texts. */
  type Held = map<string, string>

  ghost function InUse(held: Held): set<int> {
    set v, c | v in held && c in CoresIn(held[v]) :: c
  }

  lemma HeldInUse(held: Held, v: string)
    requires v in held
    ensures CoresIn(held[v]) <= InUse(held)
  {
  }

  datatype Request = Take(vm: string, count: int) | Give(vm: string)

  ghost function PinFor(sys: Sysfs, reserved: seq<int>, held: Held, count: int): Result<Pin> {
    Allocated(sys, count, reserved, Ascending(InUse(held)))
  }

  /** One step of the caller; a refused request leaves the record as it was. */
  ghost function Serve(sys: Sysfs, reserved: seq<int>, held: Held, request: Request): Held {
    match request
    case Take(vm, count) =>
      var pin := PinFor(sys, reserved, held, count);
      if vm in held || pin.Err? then held else held[vm := pin.value.cpuset]
    case Give(vm) => held - {vm}
  }

  ghost function ServeAll(sys: Sysfs, reserved: seq<int>, requests: seq<Request>): Held {
    if requests == [] then map[]
    else Serve(sys, reserved, ServeAll(sys, reserved, requests[..|requests| - 1]), requests[|requests| - 1])
  }

  /** Reserved cores and their recorded siblings. */
  ghost function OffLimits(sys: Sysfs, reserved: seq<int>): set<int> {
    BlockedBy(sys, reserved, [])
  }

  ghost predicate Isolated(sys: Sysfs, reserved: seq<int>, held: Held) {
    && (forall v :: v in held ==> Parsed(held[v]).Ok? && CoresIn(held[v]) !! OffLimits(sys, reserved))
    && (forall v, w :: v in held && w in held && v != w ==> CoresIn(held[v]) !! CoresIn(held[w]))
  }

  lemma BlockedUnion(reserved: seq<int>, taken: seq<int>, pairs: map<int, int>)
    ensures Blocked(reserved, taken, pairs) == Blocked(reserved, [], pairs) + Members(taken)
  {
    NoMembers([]);
  }

  lemma BlockedSplits(sys: Sysfs, reserved: seq<int>, held: Held)
    requires PairsOf(sys).Ok?
    ensures BlockedBy(sys, reserved, Ascending(InUse(held))) == OffLimits(sys, reserved) + InUse(held)
  {
    BlockedUnion(reserved, Ascending(InUse(held)), PairsOf(sys).value);
    assert Members(Ascending(InUse(held))) == InUse(held);
  }

  /** A new pin uses count cores that nobody holds and that are not off limits. */
  lemma PinIsFresh(sys: Sysfs, reserved: seq<int>, held: Held, count: int)
    requires PinFor(sys, reserved, held, count).Ok?
    ensures var cores := CoresIn(PinFor(sys, reserved, held, count).value.cpuset);
      && |cores| == count && cores !! OffLimits(sys, reserved) && cores !! InUse(held)
      && Parsed(PinFor(sys, reserved, held, count).value.cpuset).Ok?
  {
    AllocationExact(sys, count, reserved, Ascending(InUse(held)));
    BlockedSplits(sys, reserved, held);
  }

  lemma FreshPinKeepsIsolation(sys: Sysfs, reserved: seq<int>, held: Held, vm: string, cpuset: string)
    requires Isolated(sys, reserved, held) && Parsed(cpuset).Ok?
    requires CoresIn(cpuset) !! OffLimits(sys, reserved) && CoresIn(cpuset) !! InUse(held)
    ensures Isolated(sys, reserved, held[vm := cpuset])
  {
    forall w | w in held ensures CoresIn(held[w]) !! CoresIn(cpuset) {
      HeldInUse(held, w);
    }
  }

  lemma ServeKeepsIsolation(sys: Sysfs, reserved: seq<int>, held: Held, request: Request)
    requires Isolated(sys, reserved, held)
    ensures Isolated(sys, reserved, Serve(sys, reserved, held, request))
  {
    if request.Take? {
      var pin := PinFor(sys, reserved, held, request.count);
      if request.vm !in held && pin.Ok? {
        PinIsFresh(sys, reserved, held, request.count);
        FreshPinKeepsIsolation(sys, reserved, held, request.vm, pin.value.cpuset);
      }
    }
  }

  /** After any sequence of requests the held cpusets are pairwise disjoint and clear of reserved cores. */
  lemma {:induction false} RunIsIsolated(sys: Sysfs, reserved: seq<int>, requests: seq<Request>)
    ensures Isolated(sys, reserved, ServeAll(sys, reserved, requests))
  {
    if requests != [] {
      var before := requests[..|requests| - 1];
      RunIsIsolated(sys, reserved, before);
      ServeKeepsIsolation(sys, reserved, ServeAll(sys, reserved, before), requests[|requests| - 1]);
    }
  }

  // ----- free cores

  ghost function FreeCores(sys: Sysfs, reserved: seq<int>, held: Held): set<int> {
    HostCores(sys) - OffLimits(sys, reserved) - InUse(held)
  }

  /** No node lists a core outside 0..total_cores-1. */
  ghost predicate NodesWithinHost(sys: Sysfs) {
    forall n :: n in sys.nodes ==> CoresIn(sys.nodes[n]) <= HostCores(sys)
  }

  lemma PinWithinHost(sys: Sysfs, reserved: seq<int>, held: Held, count: int)
    requires NodesWithinHost(sys) && PinFor(sys, reserved, held, count).Ok?
    ensures CoresIn(PinFor(sys, reserved, held, count).value.cpuset) <= HostCores(sys)
  {
    AllocationExact(sys, count, reserved, Ascending(InUse(held)));
  }

  lemma InUseAfterTake(held: Held, vm: string, cpuset: string)
    requires vm !in held
    ensures InUse(held[vm := cpuset]) == InUse(held) + CoresIn(cpuset)
  {
    var after := held[vm := cpuset];
    forall c ensures c in InUse(after) <==> c in InUse(held) + CoresIn(cpuset) {
      if c in InUse(held) {
        var v :| v in held && c in CoresIn(held[v]);
        assert v in after && c in CoresIn(after[v]);
      }
      if c in CoresIn(cpuset) {
        assert vm in after && c in CoresIn(after[vm]);
      }
    }
  }

  lemma InUseAfterGive(sys: Sysfs, reserved: seq<int>, held: Held, vm: string)
    requires Isolated(sys, reserved, held) && vm in held
    ensures InUse(held - {vm}) == InUse(held) - CoresIn(held[vm])
  {
    var after := held - {vm};
    forall c ensures c in InUse(after) <==> c in InUse(held) - CoresIn(held[vm]) {
      if c in InUse(held) && c !in CoresIn(held[vm]) {
        var v :| v in held && c in CoresIn(held[v]);
        assert v in after && c in CoresIn(after[v]);
      }
    }
  }

  lemma FreeCoresAreUnblocked(sys: Sysfs, reserved: seq<int>, held: Held)
    requires PairsOf(sys).Ok?
    ensures FreeCores(sys, reserved, held)
      == HostCores(sys) - BlockedBy(sys, reserved, Ascending(InUse(held)))
  {
    BlockedSplits(sys, reserved, held);
  }

  lemma NodeFitWithinHost(sys: Sysfs, blocked: set<int>, count: nat)
    requires NodesWithinHost(sys) && SomeNodeFits(sys, blocked, count)
    ensures |HostCores(sys) - blocked| >= count
  {
    var n :| Fits(sys, n, blocked, count);
    SubsetSize(CoresIn(sys.nodes[n]) - blocked, HostCores(sys) - blocked);
  }

  /** A request succeeds exactly when the free cores suffice. */
  lemma FreeCoresDecide(sys: Sysfs, reserved: seq<int>, held: Held, count: int)
    requires Readable(sys) && NodesWithinHost(sys)
    ensures PinFor(sys, reserved, held, count).Ok? <==> 0 < count <= |FreeCores(sys, reserved, held)|
  {
    var taken := Ascending(InUse(held));
    AllocationExact(sys, count, reserved, taken);
    FreeCoresAreUnblocked(sys, reserved, held);
    if count > 0 && SomeNodeFits(sys, BlockedBy(sys, reserved, taken), count) {
      NodeFitWithinHost(sys, BlockedBy(sys, reserved, taken), count);
    }
  }

  /** A success uses up exactly count free cores. */
  lemma TakeUsesCores(sys: Sysfs, reserved: seq<int>, held: Held, vm: string, count: int)
    requires NodesWithinHost(sys) && vm !in held && PinFor(sys, reserved, held, count).Ok?
    ensures |FreeCores(sys, reserved, Serve(sys, reserved, held, Take(vm, count)))|
      == |FreeCores(sys, reserved, held)| - count
  {
    var cpuset := PinFor(sys, reserved, held, count).value.cpuset;
    PinIsFresh(sys, reserved, held, count);
    PinWithinHost(sys, reserved, held, count);
    FreeAfterTake(sys, reserved, held, vm, cpuset);
    SubtractSize(FreeCores(sys, reserved, held), CoresIn(cpuset));
  }

  lemma FreeAfterTake(sys: Sysfs, reserved: seq<int>, held: Held, vm: string, cpuset: string)
    requires vm !in held
    ensures FreeCores(sys, reserved, held[vm := cpuset]) == FreeCores(sys, reserved, held) - CoresIn(cpuset)
  {
    InUseAfterTake(held, vm, cpuset);
  }

  /** A release gives back exactly the cores the VM held. */
  lemma GiveReturnsCores(sys: Sysfs, reserved: seq<int>, held: Held, vm: string)
    requires Isolated(sys, reserved, held) && vm in held && CoresIn(held[vm]) <= HostCores(sys)
    ensures FreeCores(sys, reserved, Serve(sys, reserved, held, Give(vm)))
      == FreeCores(sys, reserved, held) + CoresIn(held[vm])
    ensures FreeCores(sys, reserved, held) !! CoresIn(held[vm])
  {
    InUseAfterGive(sys, reserved, held, vm);
    assert CoresIn(held[vm]) <= InUse(held);
  }

  /** Conservation: in every reachable record, usable host cores are either free or in use, never both. */
  lemma {:induction false} RunConservesCores(sys: Sysfs, reserved: seq<int>, requests: seq<Request>)
    requires NodesWithinHost(sys)
    ensures var held := ServeAll(sys, reserved, requests);
      && FreeCores(sys, reserved, held) !! InUse(held)
      && FreeCores(sys, reserved, held) + InUse(held) == HostCores(sys) - OffLimits(sys, reserved)
  {
    var held := ServeAll(sys, reserved, requests);
    if requests == [] {
      assert InUse(held) == {};
    } else {
      var before := ServeAll(sys, reserved, requests[..|requests| - 1]);
      RunConservesCores(sys, reserved, requests[..|requests| - 1]);
      match requests[|requests| - 1]
      case Take(vm, count) =>
        var pin := PinFor(sys, reserved, before, count);
        if vm !in before && pin.Ok? {
          PinIsFresh(sys, reserved, before, count);
          PinWithinHost(sys, reserved, before, count);
          FreeAfterTake(sys, reserved, before, vm, pin.value.cpuset);
          InUseAfterTake(before, vm, pin.value.cpuset);
        }
      case Give(vm) =>
        InUseShrinks(before, vm);
    }
  }

  lemma InUseShrinks(held: Held, vm: string)
    ensures InUse(held - {vm}) <= InUse(held)
  {
  }
}
