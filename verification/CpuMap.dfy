/** CPU topology and NUMA-first core selection over a fixed snapshot of sysfs. */
module CpuMap {
  import opened Results
  import opened Ordered
  import opened CpuList
  import opened Siblings
  import opened Packages
  import Text

  /** What the manager finds under /sys: the cpu ids in ascending order, and the stripped texts of the
      thread_siblings_list files, the node cpulist files, the core_id and physical_package_id files, and
      the KVM parameter files that can be read. */
  datatype Sysfs = Sysfs(
    cpus: seq<nat>, siblings: map<nat, string>, nodes: map<int, string>, coreFiles: CoreFiles, kvm: seq<string>)
  {
    /** An empty listing is read as the single cpu 0. */
    function CpuIds(): (ids: seq<nat>)
      ensures ids != []
    {
      if cpus == [] then [0] else cpus
    }

    function TotalCores(): (n: nat)
      ensures n > 0
    {
      |CpuIds()|
    }
  }

  datatype Topology = Topology(
    totalCores: nat, coresPerSocket: nat, numaNodes: nat, coresPerNuma: seq<nat>, hyperthreadPairs: map<int, int>,
    nestedVirtualization: bool)

  datatype Pin = Pin(cpuset: string, node: int)

  // ----- sibling lists

  /** The sibling lists in cpu order; a missing file contributes none. */
  ghost function SiblingLists(sys: Sysfs, ids: seq<nat>): Result<seq<seq<int>>> {
    if ids == [] then Ok([])
    else
      var before :- SiblingLists(sys, ids[..|ids| - 1]);
      var id := ids[|ids| - 1];
      if id !in sys.siblings then Ok(before)
      else
        var siblings :- Parsed(sys.siblings[id]);
        Ok(before + [siblings])
  }

  ghost function PairsOf(sys: Sysfs): Result<map<int, int>> {
    var lists :- SiblingLists(sys, sys.CpuIds());
    Ok(RecordAll(lists))
  }

  lemma {:induction false} SiblingListsPrefix(sys: Sysfs, ids: seq<nat>, n: nat)
    requires n <= |ids|
    requires SiblingLists(sys, ids[..n]).Err?
    ensures SiblingLists(sys, ids) == SiblingLists(sys, ids[..n])
    decreases |ids| - n
  {
    if n == |ids| {
      assert ids[..n] == ids;
    } else {
      assert ids[..n + 1][..n] == ids[..n];
      SiblingListsPrefix(sys, ids, n + 1);
    }
  }

  lemma NextSiblings(sys: Sysfs, ids: seq<nat>, i: nat, lists: seq<seq<int>>)
    requires i < |ids| && SiblingLists(sys, ids[..i]) == Ok(lists)
    ensures SiblingLists(sys, ids[..i + 1]) ==
      if ids[i] !in sys.siblings then Ok(lists)
      else if Parsed(sys.siblings[ids[i]]).Ok? then Ok(lists + [Parsed(sys.siblings[ids[i]]).value])
      else Err(Parsed(sys.siblings[ids[i]]).error)
  {
    assert ids[..i + 1][..i] == ids[..i];
  }

  lemma RecordAppend(lists: seq<seq<int>>, siblings: seq<int>)
    ensures RecordAll(lists + [siblings]) == Record(RecordAll(lists), siblings)
  {
    assert (lists + [siblings])[..|lists|] == lists;
  }

  /** A parsed list never repeats a core. */
  lemma SiblingListsAscending(sys: Sysfs, ids: seq<nat>)
    requires SiblingLists(sys, ids).Ok?
    ensures forall l :: l in SiblingLists(sys, ids).value ==> StrictlyAscending(l)
  {
    if ids != [] {
      SiblingListsAscending(sys, ids[..|ids| - 1]);
    }
  }

  // What the map records, read off the files.

  /** The cpu's file lists the two cores c and d and no other. */
  ghost predicate FileNames(sys: Sysfs, id: nat, c: int, d: int) {
    && id in sys.siblings && Parsed(sys.siblings[id]).Ok?
    && (Parsed(sys.siblings[id]).value == [c, d] || Parsed(sys.siblings[id]).value == [d, c])
  }

  /** The files can be read exactly when each of them parses. */
  lemma {:induction false} AllFilesParse(sys: Sysfs, ids: seq<nat>)
    ensures SiblingLists(sys, ids).Ok? <==>
      forall id :: id in ids && id in sys.siblings ==> Parsed(sys.siblings[id]).Ok?
  {
    if ids != [] {
      AllFilesParse(sys, ids[..|ids| - 1]);
      assert ids == ids[..|ids| - 1] + [ids[|ids| - 1]];
    }
  }

  lemma RecordedPair(pairs: map<int, int>, siblings: seq<int>, c: int)
    requires StrictlyAscending(siblings)
    ensures !Names(siblings, c) ==>
      (c in Record(pairs, siblings) <==> c in pairs) && (c in pairs ==> Record(pairs, siblings)[c] == pairs[c])
    ensures Names(siblings, c) ==>
      && c in Record(pairs, siblings)
      && (siblings == [c, Record(pairs, siblings)[c]] || siblings == [Record(pairs, siblings)[c], c])
  {
  }

  lemma LastList(sys: Sysfs, ids: seq<nat>)
    requires ids != [] && SiblingLists(sys, ids).Ok?
    ensures var front, id := ids[..|ids| - 1], ids[|ids| - 1];
      && SiblingLists(sys, front).Ok?
      && var before, after := RecordAll(SiblingLists(sys, front).value), RecordAll(SiblingLists(sys, ids).value);
        after == if id in sys.siblings then Record(before, Parsed(sys.siblings[id]).value) else before
  {
    var front, id := ids[..|ids| - 1], ids[|ids| - 1];
    if id in sys.siblings {
      RecordAppend(SiblingLists(sys, front).value, Parsed(sys.siblings[id]).value);
    }
  }

  /** No file after the i-th names c in a pair. */
  ghost predicate NoneAfter(sys: Sysfs, ids: seq<nat>, i: nat, c: int) {
    forall j, d :: i < j < |ids| ==> !FileNames(sys, ids[j], c, d)
  }

  /** A core is recorded with its companion in the last file, in cpu order, that names it in a pair. */
  lemma {:induction false} LastFileDecides(sys: Sysfs, ids: seq<nat>, i: nat, c: int, d: int)
    requires SiblingLists(sys, ids).Ok? && i < |ids| && FileNames(sys, ids[i], c, d)
    requires NoneAfter(sys, ids, i, c)
    ensures var pairs := RecordAll(SiblingLists(sys, ids).value);
      c in pairs && pairs[c] == d
  {
    var front, last := ids[..|ids| - 1], ids[|ids| - 1];
    LastList(sys, ids);
    if last in sys.siblings {
      var siblings := Parsed(sys.siblings[last]).value;
      RecordedPair(RecordAll(SiblingLists(sys, front).value), siblings, c);
      assert Names(siblings, c) ==> FileNames(sys, last, c, RecordAll(SiblingLists(sys, ids).value)[c]);
    }
    if i < |ids| - 1 {
      LastFileDecides(sys, front, i, c, d);
    }
  }

  /** Every recorded pair is the list of some cpu's file, and the last one naming the core. */
  lemma {:induction false} RecordedFromFile(sys: Sysfs, ids: seq<nat>, c: int) returns (i: nat)
    requires SiblingLists(sys, ids).Ok? && c in RecordAll(SiblingLists(sys, ids).value)
    ensures i < |ids| && FileNames(sys, ids[i], c, RecordAll(SiblingLists(sys, ids).value)[c])
    ensures NoneAfter(sys, ids, i, c)
  {
    var front, last := ids[..|ids| - 1], ids[|ids| - 1];
    LastList(sys, ids);
    if last in sys.siblings {
      RecordedPair(RecordAll(SiblingLists(sys, front).value), Parsed(sys.siblings[last]).value, c);
    }
    if last in sys.siblings && Names(Parsed(sys.siblings[last]).value, c) {
      i := |ids| - 1;
    } else {
      i := RecordedFromFile(sys, front, c);
      NoneAfterLast(sys, ids, i, c);
    }
  }

  lemma NoneAfterLast(sys: Sysfs, ids: seq<nat>, i: nat, c: int)
    requires ids != [] && NoneAfter(sys, ids[..|ids| - 1], i, c)
    requires ids[|ids| - 1] in sys.siblings && Parsed(sys.siblings[ids[|ids| - 1]]).Ok? ==>
      !Names(Parsed(sys.siblings[ids[|ids| - 1]]).value, c)
    ensures NoneAfter(sys, ids, i, c)
  {
    var front := ids[..|ids| - 1];
    forall j, d | i < j < |ids| ensures !FileNames(sys, ids[j], c, d) {
      if j < |front| {
        assert !FileNames(sys, front[j], c, d);
      }
    }
  }

  /** A core named in a pair by some cpu's file is recorded. */
  lemma {:induction false} NamedIsRecorded(sys: Sysfs, ids: seq<nat>, i: nat, c: int, d: int)
    requires SiblingLists(sys, ids).Ok? && i < |ids| && FileNames(sys, ids[i], c, d)
    ensures c in RecordAll(SiblingLists(sys, ids).value)
  {
    var front, last := ids[..|ids| - 1], ids[|ids| - 1];
    LastList(sys, ids);
    if last in sys.siblings {
      RecordedPair(RecordAll(SiblingLists(sys, front).value), Parsed(sys.siblings[last]).value, c);
    }
    if i < |ids| - 1 {
      NamedIsRecorded(sys, front, i, c, d);
    }
  }

  /** No core is named in two different pairs. */
  ghost predicate FilesPaired(sys: Sysfs) {
    forall i, j, c, d, e ::
      i in sys.CpuIds() && j in sys.CpuIds() && FileNames(sys, i, c, d) && FileNames(sys, j, c, e) ==> d == e
  }

  // ----- NUMA nodes

  ghost predicate NodesReadable(sys: Sysfs) {
    forall n :: n in sys.nodes ==> Parsed(sys.nodes[n]).Ok?
  }

  /** The cores of each node; one malformed cpulist makes the whole call fail. */
  ghost function NumaCores(sys: Sysfs): Result<map<int, seq<int>>> {
    if NodesReadable(sys)
    then Ok(map n | n in sys.nodes :: Parsed(sys.nodes[n]).value)
    else Err(ValueError)
  }

  method DiscoverNumaCores(sys: Sysfs) returns (r: Result<map<int, seq<int>>>)
    ensures r == NumaCores(sys)
  {
    var numa: map<int, seq<int>> := map[];
    var pending := sys.nodes.Keys;
    while pending != {}
      invariant pending <= sys.nodes.Keys
      invariant forall n :: n in sys.nodes.Keys - pending ==> Parsed(sys.nodes[n]).Ok?
      invariant numa == map n | n in sys.nodes && n !in pending :: Parsed(sys.nodes[n]).value
    {
      ghost var some := Pick(pending);
      var node :| node in pending;
      var cores := ParseCpuList(sys.nodes[node]);
      if cores.Err? {
        CoresOfMeaning(Text.Split(sys.nodes[node], ','));
        return Err(ValueError);
      }
      numa := numa[node := cores.value];
      pending := pending - {node};
    }
    assert numa == map n | n in sys.nodes :: Parsed(sys.nodes[n]).value;
    return Ok(numa);
  }
  // ----- topology

  ghost function TopologyOf(sys: Sysfs): Result<Topology> {
    var pairs :- PairsOf(sys);
    var numa :- NumaCores(sys);
    var total, perSocket := sys.TotalCores(), CoresPerSocket(sys.coreFiles, sys.CpuIds());
    var nested := exists i :: 0 <= i < |sys.kvm| && SaysYes(sys.kvm[i]);
    if numa == map[] then Ok(Topology(total, perSocket, 1, [total], pairs, nested))
    else
      AscendingAt(numa.Keys);
      Ok(Topology(total, perSocket, |numa|, NodeSizes(numa, Ascending(numa.Keys)), pairs, nested))
  }

  function NodeSizes(numa: map<int, seq<int>>, nodes: seq<int>): seq<nat>
    requires forall i :: 0 <= i < |nodes| ==> nodes[i] in numa
  {
    seq(|nodes|, i requires 0 <= i < |nodes| => |numa[nodes[i]]|)
  }

  method GetTopology(sys: Sysfs) returns (r: Result<Topology>)
    ensures r == TopologyOf(sys)
  {
    var output := new SiblingMap();
    var packages :- ReadCpus(sys, output);
    var numa :- DiscoverNumaCores(sys);
    var total := sys.TotalCores();
    PackagesNonEmpty(sys.coreFiles, sys.CpuIds());
    var perSocket := Largest(packages);
    var nested := DetectNested(sys.kvm);
    if numa == map[] {
      return Ok(Topology(total, perSocket, 1, [total], output.pairs, nested));
    }
    AscendingAt(numa.Keys);
    var nodes := Sorted(numa.Keys);
    return Ok(Topology(total, perSocket, |numa|, NodeSizes(numa, nodes), output.pairs, nested));
  }

  /** The loop over the cpu ids: packages are counted and siblings recorded in output. */
  method ReadCpus(sys: Sysfs, output: SiblingMap) returns (r: Result<map<int, set<int>>>)
    requires output.pairs == map[]
    modifies output
    ensures r.Ok? ==> PairsOf(sys) == Ok(output.pairs) && r.value == PackagesOf(sys.coreFiles, sys.CpuIds())
    ensures r.Err? ==> PairsOf(sys) == Err(r.error)
  {
    var ids := sys.CpuIds();
    var packages: map<int, set<int>> := map[];
    ghost var lists: seq<seq<int>> := [];
    for i := 0 to |ids|
      invariant packages == PackagesOf(sys.coreFiles, ids[..i])
      invariant SiblingLists(sys, ids[..i]) == Ok(lists)
      invariant output.pairs == RecordAll(lists)
    {
      NextSiblings(sys, ids, i, lists);
      assert ids[..i + 1] == ids[..i] + [ids[i]];
      PackagesNext(sys.coreFiles, ids[..i], ids[i]);
      packages := WithCore(packages, sys.coreFiles.PackageOf(ids[i]), sys.coreFiles.CoreOf(ids[i]));
      var text := if ids[i] in sys.siblings then Some(sys.siblings[ids[i]]) else None;
      var collected := CollectHyperthreadPairs(text, output);
      if collected.Err? {
        SiblingListsPrefix(sys, ids, i + 1);
        return Err(collected.error);
      }
      if text.Some? {
        ghost var siblings := Parsed(text.value).value;
        RecordAppend(lists, siblings);
        lists := lists + [siblings];
      }
    }
    assert ids[..|ids|] == ids;
    return Ok(packages);
  }

  // ----- core selection

  function SiblingsIn(reserved: seq<int>, pairs: map<int, int>): set<int> {
    set r | r in reserved && r in pairs :: pairs[r]
  }

  /** Cores an allocation may not use: reserved, taken, or recorded as a reserved core's sibling. */
  function Blocked(reserved: seq<int>, taken: seq<int>, pairs: map<int, int>): set<int> {
    Members(reserved) + Members(taken) + SiblingsIn(reserved, pairs)
  }

  /** [core for core in cores if core not in blocked] */
  function Available(cores: seq<int>, blocked: set<int>): (free: seq<int>)
    ensures Members(free) == Members(cores) - blocked
  {
    if cores == [] then []
    else
      var front, last := Available(cores[..|cores| - 1], blocked), cores[|cores| - 1];
      assert cores == cores[..|cores| - 1] + [last];
      MembersAppend(cores[..|cores| - 1], last);
      MembersAppend(front, last);
      if last in blocked then front else front + [last]
  }

  lemma {:induction false} AvailableAscending(cores: seq<int>, blocked: set<int>)
    requires StrictlyAscending(cores)
    ensures StrictlyAscending(Available(cores, blocked))
    ensures |Available(cores, blocked)| == |Members(cores) - blocked|
  {
    var free := Available(cores, blocked);
    if cores != [] {
      var front := cores[..|cores| - 1];
      AvailableAscending(front, blocked);
      var kept := Available(front, blocked);
      forall i | 0 <= i < |kept| ensures kept[i] < cores[|cores| - 1] {
        assert kept[i] in Members(kept);
      }
      assert free == kept || free == kept + [cores[|cores| - 1]];
    }
    AscendingOfMembers(free);
  }

  datatype Selection = Selection(cores: seq<int>, node: int)

  /** The first listed node with enough available cores. */
  function FirstFit(nodes: seq<int>, numa: map<int, seq<int>>, blocked: set<int>, count: nat): Option<Selection>
    requires forall i :: 0 <= i < |nodes| ==> nodes[i] in numa
  {
    if nodes == [] then None
    else
      var free := Available(numa[nodes[0]], blocked);
      if |free| >= count then Some(Selection(free[..count], nodes[0]))
      else FirstFit(nodes[1..], numa, blocked, count)
  }

  /** The nodes are tried in increasing order of their id. */
  ghost function NodeFit(numa: map<int, seq<int>>, blocked: set<int>, count: nat): Option<Selection> {
    AscendingAt(numa.Keys);
    FirstFit(Ascending(numa.Keys), numa, blocked, count)
  }

  ghost function Select(numa: map<int, seq<int>>, total: nat, blocked: set<int>, count: nat): Option<Selection> {
    var whole := Range(0, total);
    var fit := NodeFit(if numa == map[] then map[0 := whole] else numa, blocked, count);
    if fit.Some? then fit
    else
      var fallback := Available(whole, blocked);
      if |fallback| < count then None else Some(Selection(fallback[..count], 0))
  }

  ghost function Allocated(sys: Sysfs, count: int, reserved: seq<int>, taken: seq<int>): Result<Pin> {
    if count <= 0 then Err(ValueError)
    else
      var pairs :- PairsOf(sys);
      var numa :- NumaCores(sys);
      match Select(numa, sys.TotalCores(), Blocked(reserved, taken, pairs), count)
      case None => Err(ValueError)
      case Some(selection) => Ok(Pin(Formatted(selection.cores), selection.node))
  }

  method CollectBlocked(reserved: seq<int>, taken: seq<int>, pairs: map<int, int>) returns (blocked: set<int>)
    ensures blocked == Blocked(reserved, taken, pairs)
  {
    blocked := Members(reserved) + Members(taken);
    for i := 0 to |reserved|
      invariant blocked == Members(reserved) + Members(taken) + SiblingsIn(reserved[..i], pairs)
    {
      SiblingsInNext(reserved, i, pairs);
      if reserved[i] in pairs {
        blocked := blocked + {pairs[reserved[i]]};
      }
    }
    assert reserved[..|reserved|] == reserved;
  }

  lemma SiblingsInNext(reserved: seq<int>, i: nat, pairs: map<int, int>)
    requires i < |reserved|
    ensures SiblingsIn(reserved[..i + 1], pairs) ==
      SiblingsIn(reserved[..i], pairs) + if reserved[i] in pairs then {pairs[reserved[i]]} else {}
  {
    assert forall r :: r in reserved[..i + 1] <==> r in reserved[..i] || r == reserved[i];
  }

  method AllocateCores(sys: Sysfs, count: int, reserved: seq<int>, taken: seq<int>) returns (r: Result<Pin>)
    ensures r == Allocated(sys, count, reserved, taken)
  {
    if count <= 0 {
      return Err(ValueError);
    }
    var topology := GetTopology(sys);
    if topology.Err? {
      return Err(topology.error);
    }
    var blocked := CollectBlocked(reserved, taken, topology.value.hyperthreadPairs);
    var discovered := DiscoverNumaCores(sys);
    var selection := SelectCores(discovered.value, topology.value.totalCores, blocked, count);
    if selection == None {
      return Err(ValueError);
    }
    var cpuset := FormatCpuset(selection.value.cores);
    return Ok(Pin(cpuset, selection.value.node));
  }

  /** The node loop and the cross-node fallback of allocate_cores. */
  method SelectCores(numa: map<int, seq<int>>, total: nat, blocked: set<int>, count: nat)
    returns (selection: Option<Selection>)
    ensures selection == Select(numa, total, blocked, count)
  {
    var candidates := if numa == map[] then map[0 := Range(0, total)] else numa;
    AscendingAt(candidates.Keys);
    var nodes := Sorted(candidates.Keys);
    selection := FitNode(nodes, candidates, blocked, count);
    if selection == None {
      var fallback := Available(Range(0, total), blocked);
      if |fallback| >= count {
        selection := Some(Selection(fallback[..count], 0));
      }
    }
  }

  method FitNode(nodes: seq<int>, numa: map<int, seq<int>>, blocked: set<int>, count: nat)
    returns (selection: Option<Selection>)
    requires forall i :: 0 <= i < |nodes| ==> nodes[i] in numa
    ensures selection == FirstFit(nodes, numa, blocked, count)
  {
    for i := 0 to |nodes|
      invariant FirstFit(nodes, numa, blocked, count) == FirstFit(nodes[i..], numa, blocked, count)
    {
      assert nodes[i..][1..] == nodes[i + 1..];
      var available := Available(numa[nodes[i]], blocked);
      if |available| >= count {
        return Some(Selection(available[..count], nodes[i]));
      }
    }
    return None;
  }
}
