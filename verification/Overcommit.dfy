/** Exactly when the ledger cannot be overcommitted: late checks, and requests that give credit. */
module Overcommit {
  import opened Ordered
  import opened Capacity

  // ----- exactly when an allocation is safe

  lemma {:induction false} SumNonNegative(ledger: Ledger)
    requires AllNonNegative(ledger)
    ensures Sum(ledger).NonNegative()
    decreases |ledger|
  {
    if ledger != map[] {
      KeyExists(ledger);
      var v :| v in ledger;
      SumSplit(ledger, v);
      SumNonNegative(ledger - {v});
    }
  }

  /** An allocation keeps the ledger within the host exactly when a check at that moment passes. */
  lemma AllocationSafeIffChecked(host: Host, ledger: Ledger, vm: string, need: Allocation)
    requires WithinBounds(host, ledger) && AllNonNegative(ledger)
    requires vm !in ledger && need.NonNegative()
    ensures WithinBounds(host, ledger[vm := need]) <==> Admissible(host, ledger, need)
  {
    SumAdd(ledger, vm, need);
    SumNonNegative(ledger);
  }

  /** Of two requests checked on the same ledger, the second is safe exactly when checking it again would pass. */
  lemma StaleCheckSafeIff(host: Host, ledger: Ledger, u: string, v: string, a: Allocation, b: Allocation)
    requires WithinBounds(host, ledger) && AllNonNegative(ledger)
    requires u !in ledger && v !in ledger && u != v && a.NonNegative() && b.NonNegative()
    requires Admissible(host, ledger, a) && Admissible(host, ledger, b)
    ensures WithinBounds(host, ledger[u := a][v := b]) <==> Admissible(host, ledger[u := a], b)
  {
    AdmitKeepsBounds(host, ledger, u, a);
    AllocationSafeIffChecked(host, ledger[u := a], v, b);
  }

  // ----- requests of any sign, over all runs

  datatype Resource = Cpu | Memory | Disk

  function Part(a: Allocation, c: Resource): int {
    match c
    case Cpu => a.cpu
    case Memory => a.memory
    case Disk => a.disk
  }

  /** n of one resource and nothing of the others. */
  function Only(c: Resource, n: int): Allocation {
    match c
    case Cpu => Allocation(n, 0, 0)
    case Memory => Allocation(0, n, 0)
    case Disk => Allocation(0, 0, n)
  }

  function Min(a: int, b: int): int {
    if a < b then a else b
  }

  ghost predicate AtLeast(a: Allocation, floor: Allocation) {
    forall c :: Part(a, c) >= Part(floor, c)
  }

  ghost predicate NonPositive(a: Allocation) {
    forall c :: Part(a, c) <= 0
  }

  ghost predicate RequestsAtLeast(events: seq<LedgerEvent>, floor: Allocation) {
    forall i :: 0 <= i < |events| && events[i].Admit? ==> AtLeast(events[i].need, floor)
  }

  /** Callers that check each request right before allocating it, and ask for no less than floor,
      can never exceed the host. */
  ghost predicate AlwaysWithin(host: Host, floor: Allocation) {
    forall events :: RequestsAtLeast(events, floor) ==> WithinBounds(host, LedgerAfter(host, map[], events))
  }

  /** The credit that all VMs but one can give does not exceed what the budget lacks. */
  ghost predicate CreditFits(host: Host, floor: Allocation, c: Resource) {
    (host.maxVms - 1) * Part(floor, c) >= Min(0, Part(Budget(host), c))
  }

  // One resource at a time.

  ghost predicate PartWithin(host: Host, ledger: Ledger, c: Resource) {
    Part(Sum(ledger), c) <= Max(Part(Budget(host), c), 0)
  }

  lemma WithinByParts(host: Host, ledger: Ledger)
    ensures WithinBounds(host, ledger) <==>
      (forall c :: PartWithin(host, ledger, c)) && |ledger| <= Max(host.maxVms, 0)
  {
    if forall c :: PartWithin(host, ledger, c) {
      assert PartWithin(host, ledger, Cpu) && PartWithin(host, ledger, Memory) && PartWithin(host, ledger, Disk);
    }
  }

  /** The request does not exceed what is available of the resource. */
  ghost predicate PartFits(host: Host, ledger: Ledger, need: Allocation, c: Resource) {
    Part(need, c) <= Max(Part(Budget(host), c) - Part(Sum(ledger), c), 0)
  }

  lemma AdmissibleByParts(host: Host, ledger: Ledger, need: Allocation)
    ensures Admissible(host, ledger, need) <==>
      |ledger| < host.maxVms && forall c :: PartFits(host, ledger, need, c)
  {
    AdmissibleByEach(host, ledger, need);
    if PartFits(host, ledger, need, Cpu) && PartFits(host, ledger, need, Memory) && PartFits(host, ledger, need, Disk) {
      forall c ensures PartFits(host, ledger, need, c) {
        match c case Cpu => case Memory => case Disk =>
      }
    }
  }

  lemma AdmissibleByEach(host: Host, ledger: Ledger, need: Allocation)
    ensures Admissible(host, ledger, need) <==>
      && |ledger| < host.maxVms
      && PartFits(host, ledger, need, Cpu) && PartFits(host, ledger, need, Memory) && PartFits(host, ledger, need, Disk)
  {
  }

  lemma Times(n: int, k: int, a: int)
    requires n <= k && a <= 0
    ensures n * a >= k * a
  {
    assert (k - n) * a <= 0;
  }

  lemma {:induction false} SumAtLeast(ledger: Ledger, c: Resource, low: int)
    requires forall v :: v in ledger ==> Part(ledger[v], c) >= low
    ensures Part(Sum(ledger), c) >= |ledger| * low
    decreases |ledger|
  {
    if ledger != map[] {
      KeyExists(ledger);
      var v :| v in ledger;
      SumSplit(ledger, v);
      SumAtLeast(ledger - {v}, c, low);
      assert |ledger - {v}| == |ledger| - 1;
      OneMore(|ledger| - 1, low);
    }
  }

  lemma {:induction false} SumAtMostZero(ledger: Ledger, c: Resource)
    requires forall v :: v in ledger ==> Part(ledger[v], c) <= 0
    ensures Part(Sum(ledger), c) <= 0
    decreases |ledger|
  {
    if ledger != map[] {
      KeyExists(ledger);
      var v :| v in ledger;
      SumSplit(ledger, v);
      SumAtMostZero(ledger - {v}, c);
    }
  }

  /** With a budget only entries that are not negative and fit it, without one only bounded credit. */
  ghost predicate Sound(host: Host, ledger: Ledger, floor: Allocation, c: Resource) {
    if Part(Budget(host), c) >= 0
    then (forall v :: v in ledger ==> Part(ledger[v], c) >= 0) && Part(Sum(ledger), c) <= Part(Budget(host), c)
    else forall v :: v in ledger ==> Part(floor, c) <= Part(ledger[v], c) <= 0
  }

  lemma SoundIsWithin(host: Host, ledger: Ledger, floor: Allocation, c: Resource)
    requires Sound(host, ledger, floor, c)
    ensures PartWithin(host, ledger, c)
  {
    if Part(Budget(host), c) < 0 {
      SumAtMostZero(ledger, c);
    }
  }

  lemma FloorOfBudget(host: Host, floor: Allocation, c: Resource)
    requires host.maxVms >= 2 && CreditFits(host, floor, c) && Part(floor, c) <= 0 && Part(Budget(host), c) >= 0
    ensures Part(floor, c) == 0
  {
    Times(1, host.maxVms - 1, Part(floor, c));
  }

  /** Where the budget is negative nobody gets anything: the credit in the ledger does not make up for it. */
  lemma NothingWithoutBudget(host: Host, ledger: Ledger, floor: Allocation, c: Resource, need: Allocation)
    requires CreditFits(host, floor, c) && Part(floor, c) <= 0 && Part(Budget(host), c) < 0
    requires Sound(host, ledger, floor, c) && Admissible(host, ledger, need)
    ensures Part(need, c) <= 0
  {
    AdmissibleByParts(host, ledger, need);
    assert PartFits(host, ledger, need, c);
    SumAtLeast(ledger, c, Part(floor, c));
    Times(|ledger|, host.maxVms - 1, Part(floor, c));
  }

  lemma AdmitKeepsSound(host: Host, ledger: Ledger, floor: Allocation, c: Resource, vm: string, need: Allocation)
    requires host.maxVms >= 2 && CreditFits(host, floor, c) && Part(floor, c) <= 0
    requires Sound(host, ledger, floor, c) && vm !in ledger
    requires Part(need, c) >= Part(floor, c) && Admissible(host, ledger, need)
    ensures Sound(host, ledger[vm := need], floor, c)
  {
    if Part(Budget(host), c) >= 0 {
      FloorOfBudget(host, floor, c);
      AdmissibleByParts(host, ledger, need);
      assert PartFits(host, ledger, need, c);
      SumAdd(ledger, vm, need);
    } else {
      NothingWithoutBudget(host, ledger, floor, c, need);
    }
  }

  lemma LeaveKeepsSound(host: Host, ledger: Ledger, floor: Allocation, c: Resource, vm: string)
    requires Sound(host, ledger, floor, c)
    ensures Sound(host, ledger - {vm}, floor, c)
  {
    if vm in ledger {
      SumSplit(ledger, vm);
    } else {
      assert ledger - {vm} == ledger;
    }
  }

  lemma StepKeepsSound(host: Host, ledger: Ledger, floor: Allocation, c: Resource, event: LedgerEvent)
    requires host.maxVms >= 2 && CreditFits(host, floor, c) && Part(floor, c) <= 0
    requires Sound(host, ledger, floor, c) && (event.Admit? ==> Part(event.need, c) >= Part(floor, c))
    ensures Sound(host, After(host, ledger, event), floor, c)
  {
    if event.Leave? {
      LeaveKeepsSound(host, ledger, floor, c, event.vm);
    } else if event.vm !in ledger && Admissible(host, ledger, event.need) {
      AdmitKeepsSound(host, ledger, floor, c, event.vm, event.need);
    }
  }

  lemma {:induction false} RunIsSound(host: Host, floor: Allocation, c: Resource, events: seq<LedgerEvent>)
    requires host.maxVms >= 2 && CreditFits(host, floor, c) && Part(floor, c) <= 0
    requires RequestsAtLeast(events, floor)
    ensures Sound(host, LedgerAfter(host, map[], events), floor, c)
  {
    if events != [] {
      var before, last := events[..|events| - 1], events[|events| - 1];
      RunIsSound(host, floor, c, before);
      assert last.Admit? ==> AtLeast(last.need, floor);
      StepKeepsSound(host, LedgerAfter(host, map[], before), floor, c, last);
    }
  }

  lemma RemovedSize(ledger: Ledger, vm: string)
    ensures |ledger - {vm}| == if vm in ledger then |ledger| - 1 else |ledger|
  {
    assert vm in ledger ==> ledger == (ledger - {vm})[vm := ledger[vm]];
    assert vm !in ledger ==> ledger - {vm} == ledger;
  }

  lemma {:induction false} RunCount(host: Host, events: seq<LedgerEvent>)
    ensures |LedgerAfter(host, map[], events)| <= Max(host.maxVms, 0)
  {
    if events != [] {
      var before, last := events[..|events| - 1], events[|events| - 1];
      RunCount(host, before);
      if last.Leave? {
        RemovedSize(LedgerAfter(host, map[], before), last.vm);
      }
    }
  }

  lemma CreditFitsIsSafe(host: Host, floor: Allocation, events: seq<LedgerEvent>)
    requires host.maxVms >= 2 && NonPositive(floor) && forall c :: CreditFits(host, floor, c)
    requires RequestsAtLeast(events, floor)
    ensures WithinBounds(host, LedgerAfter(host, map[], events))
  {
    var ledger := LedgerAfter(host, map[], events);
    forall c ensures PartWithin(host, ledger, c) {
      RunIsSound(host, floor, c, events);
      SoundIsWithin(host, ledger, floor, c);
    }
    RunCount(host, events);
    WithinByParts(host, ledger);
  }

  /** One VM at a time always fits. */
  lemma {:induction false} LoneVmIsSafe(host: Host, events: seq<LedgerEvent>)
    requires host.maxVms < 2
    ensures WithinBounds(host, LedgerAfter(host, map[], events)) && |LedgerAfter(host, map[], events)| <= 1
  {
    if events == [] {
      EmptyLedgerFits(host);
    } else {
      var before, last := LedgerAfter(host, map[], events[..|events| - 1]), events[|events| - 1];
      LoneVmIsSafe(host, events[..|events| - 1]);
      if last.Leave? {
        RemovedSize(before, last.vm);
        EmptyLedgerFits(host);
        assert last.vm in before ==> before - {last.vm} == map[];
        assert last.vm !in before ==> before - {last.vm} == before;
      } else if last.vm !in before && Admissible(host, before, last.need) {
        assert before == map[];
        assert before[last.vm := last.need] == map[last.vm := last.need];
        FirstAdmissible(host, last.need);
        SingleFits(host, last.vm, last.need);
      }
    }
  }

  // The run that exceeds the host: all VMs but one give credit, one uses it, the others leave.

  /** A different name for each number. */
  function Name(i: nat): (name: string)
    ensures |name| == i
  {
    seq(i, _ => 'x')
  }

  predicate IsName(v: string) {
    v == Name(|v|)
  }

  function Credits(n: nat, need: Allocation): seq<LedgerEvent> {
    if n == 0 then [] else Credits(n - 1, need) + [Admit(Name(n - 1), need)]
  }

  function Departures(n: nat): seq<LedgerEvent> {
    if n == 0 then [] else Departures(n - 1) + [Leave(Name(n - 1))]
  }

  lemma AdmitNext(host: Host, events: seq<LedgerEvent>, vm: string, need: Allocation)
    requires vm !in LedgerAfter(host, map[], events) && Admissible(host, LedgerAfter(host, map[], events), need)
    ensures LedgerAfter(host, map[], events + [Admit(vm, need)]) == LedgerAfter(host, map[], events)[vm := need]
  {
    assert (events + [Admit(vm, need)])[..|events|] == events;
  }

  lemma LeaveNext(host: Host, events: seq<LedgerEvent>, vm: string)
    ensures LedgerAfter(host, map[], events + [Leave(vm)]) == LedgerAfter(host, map[], events) - {vm}
  {
    assert (events + [Leave(vm)])[..|events|] == events;
  }

  /** n VMs with these needs, under the first n names. */
  ghost predicate Given(ledger: Ledger, n: nat, need: Allocation) {
    && |ledger| == n
    && (forall v :: v in ledger ==> |v| < n && IsName(v))
    && forall c :: Part(Sum(ledger), c) == n * Part(need, c)
  }

  lemma OneMoreGiven(ledger: Ledger, n: nat, need: Allocation)
    requires Given(ledger, n, need)
    ensures Name(n) !in ledger && Given(ledger[Name(n) := need], n + 1, need)
  {
    assert Name(n) !in ledger && IsName(Name(n));
    forall c ensures Part(Sum(ledger[Name(n) := need]), c) == (n + 1) * Part(need, c) {
      PartAdded(ledger, Name(n), need, c, n);
    }
  }

  lemma PartAdded(ledger: Ledger, v: string, need: Allocation, c: Resource, n: nat)
    requires v !in ledger && Part(Sum(ledger), c) == n * Part(need, c)
    ensures Part(Sum(ledger[v := need]), c) == (n + 1) * Part(need, c)
  {
    SumAdd(ledger, v, need);
    OneMore(n, Part(need, c));
  }

  lemma OneMore(n: nat, a: int)
    ensures n * a + a == (n + 1) * a
  {
  }

  lemma CreditAdmitted(host: Host, ledger: Ledger, need: Allocation)
    requires |ledger| < host.maxVms && NonPositive(need)
    ensures Admissible(host, ledger, need)
  {
    AdmissibleByParts(host, ledger, need);
  }

  lemma {:induction false} CreditsGiven(host: Host, n: nat, need: Allocation)
    requires n < host.maxVms && NonPositive(need)
    ensures Given(LedgerAfter(host, map[], Credits(n, need)), n, need)
  {
    if n > 0 {
      var before := LedgerAfter(host, map[], Credits(n - 1, need));
      CreditsGiven(host, n - 1, need);
      OneMoreGiven(before, n - 1, need);
      CreditAdmitted(host, before, need);
      AdmitNext(host, Credits(n - 1, need), Name(n - 1), need);
    }
  }

  /** The whole run up to the k-th departure. */
  function Scheme(n: nat, credit: Allocation, greedy: Allocation, k: nat): seq<LedgerEvent> {
    Credits(n, credit) + [Admit(Name(n), greedy)] + Departures(k)
  }

  /** The greedy VM is there, and of the others those from the k-th on. */
  ghost predicate Left(ledger: Ledger, n: nat, greedy: Allocation, k: nat) {
    && Name(n) in ledger && ledger[Name(n)] == greedy
    && forall v :: v in ledger ==> k <= |v| <= n && IsName(v)
  }

  lemma OneLessLeft(ledger: Ledger, n: nat, greedy: Allocation, k: nat)
    requires Left(ledger, n, greedy, k) && k < n
    ensures Left(ledger - {Name(k)}, n, greedy, k + 1)
  {
    forall v | v in ledger - {Name(k)} ensures k + 1 <= |v| {
      assert IsName(v) && v != Name(k);
    }
  }

  lemma OneLeftOver(ledger: Ledger, n: nat, greedy: Allocation)
    requires Left(ledger, n, greedy, n)
    ensures ledger == map[Name(n) := greedy]
  {
    forall v | v in ledger ensures v == Name(n) {
      assert IsName(v);
    }
  }

  lemma GreedyJoins(ledger: Ledger, n: nat, credit: Allocation, greedy: Allocation)
    requires Given(ledger, n, credit)
    ensures Name(n) !in ledger && Left(ledger[Name(n) := greedy], n, greedy, 0)
  {
    assert Name(n) !in ledger && IsName(Name(n));
  }

  lemma SchemeStarts(host: Host, n: nat, credit: Allocation, greedy: Allocation)
    requires n < host.maxVms && NonPositive(credit)
    requires Admissible(host, LedgerAfter(host, map[], Credits(n, credit)), greedy)
    ensures Left(LedgerAfter(host, map[], Scheme(n, credit, greedy, 0)), n, greedy, 0)
  {
    CreditsGiven(host, n, credit);
    GreedyJoins(LedgerAfter(host, map[], Credits(n, credit)), n, credit, greedy);
    AdmitNext(host, Credits(n, credit), Name(n), greedy);
    assert Scheme(n, credit, greedy, 0) == Credits(n, credit) + [Admit(Name(n), greedy)];
  }

  lemma SchemeNext(n: nat, credit: Allocation, greedy: Allocation, k: nat)
    requires k > 0
    ensures Scheme(n, credit, greedy, k) == Scheme(n, credit, greedy, k - 1) + [Leave(Name(k - 1))]
  {
  }

  lemma {:induction false} SchemeLeaves(host: Host, n: nat, credit: Allocation, greedy: Allocation, k: nat)
    requires n < host.maxVms && NonPositive(credit) && k <= n
    requires Admissible(host, LedgerAfter(host, map[], Credits(n, credit)), greedy)
    ensures Left(LedgerAfter(host, map[], Scheme(n, credit, greedy, k)), n, greedy, k)
  {
    if k == 0 {
      SchemeStarts(host, n, credit, greedy);
    } else {
      var before := Scheme(n, credit, greedy, k - 1);
      SchemeLeaves(host, n, credit, greedy, k - 1);
      SchemeNext(n, credit, greedy, k);
      LeaveNext(host, before, Name(k - 1));
      OneLessLeft(LedgerAfter(host, map[], before), n, greedy, k - 1);
    }
  }

  lemma {:induction false} SchemeRequests(n: nat, credit: Allocation, floor: Allocation)
    requires AtLeast(credit, floor)
    ensures RequestsAtLeast(Credits(n, credit), floor)
  {
    if n > 0 {
      SchemeRequests(n - 1, credit, floor);
    }
  }

  lemma {:induction false} DeparturesOnly(n: nat)
    ensures forall i :: 0 <= i < |Departures(n)| ==> Departures(n)[i].Leave?
  {
    if n > 0 {
      DeparturesOnly(n - 1);
    }
  }

  lemma GreedyAdmitted(host: Host, floor: Allocation, c: Resource, n: nat)
    requires n == host.maxVms - 1 && NonPositive(floor) && !CreditFits(host, floor, c)
    ensures Admissible(
      host, LedgerAfter(host, map[], Credits(n, Only(c, Part(floor, c)))), Only(c, Max(Part(Budget(host), c), 0) + 1))
  {
    var credit, greedy := Only(c, Part(floor, c)), Only(c, Max(Part(Budget(host), c), 0) + 1);
    CreditsGiven(host, n, credit);
    AdmissibleByParts(host, LedgerAfter(host, map[], Credits(n, credit)), greedy);
  }

  lemma SchemeAllowed(n: nat, credit: Allocation, greedy: Allocation, floor: Allocation)
    requires AtLeast(credit, floor) && AtLeast(greedy, floor)
    ensures RequestsAtLeast(Scheme(n, credit, greedy, n), floor)
  {
    SchemeRequests(n, credit, floor);
    DeparturesOnly(n);
  }

  lemma TooMuchForOne(host: Host, v: string, c: Resource)
    ensures !WithinBounds(host, map[v := Only(c, Max(Part(Budget(host), c), 0) + 1)])
  {
    SingleFits(host, v, Only(c, Max(Part(Budget(host), c), 0) + 1));
  }

  lemma OverdrawnRun(host: Host, floor: Allocation, c: Resource) returns (events: seq<LedgerEvent>)
    requires host.maxVms >= 2 && NonPositive(floor) && !CreditFits(host, floor, c)
    ensures RequestsAtLeast(events, floor) && !WithinBounds(host, LedgerAfter(host, map[], events))
  {
    var n := host.maxVms - 1;
    var credit, greedy := Only(c, Part(floor, c)), Only(c, Max(Part(Budget(host), c), 0) + 1);
    events := Scheme(n, credit, greedy, n);
    GreedyAdmitted(host, floor, c, n);
    SchemeLeaves(host, n, credit, greedy, n);
    OneLeftOver(LedgerAfter(host, map[], events), n, greedy);
    SchemeAllowed(n, credit, greedy, floor);
    TooMuchForOne(host, Name(n), c);
  }

  /** Requests of any sign from a non-positive floor upwards can never exceed the host, however checked callers
      come and go, exactly when the host takes one VM or the credit all VMs but one can give stays within what
      each budget lacks. */
  lemma FloorDecides(host: Host, floor: Allocation)
    requires NonPositive(floor)
    ensures AlwaysWithin(host, floor) <==> host.maxVms < 2 || forall c :: CreditFits(host, floor, c)
  {
    if host.maxVms < 2 || forall c :: CreditFits(host, floor, c) {
      forall events | RequestsAtLeast(events, floor) ensures WithinBounds(host, LedgerAfter(host, map[], events)) {
        if host.maxVms < 2 {
          LoneVmIsSafe(host, events);
        } else {
          CreditFitsIsSafe(host, floor, events);
        }
      }
    } else {
      var c :| !CreditFits(host, floor, c);
      var events := OverdrawnRun(host, floor, c);
    }
  }

  /** On a host whose reservations fit its totals and that takes two VMs, only non-negative requests are safe. */
  lemma FloorOfFittingHost(host: Host, floor: Allocation)
    requires NonPositive(floor) && Budget(host).NonNegative() && host.maxVms >= 2
    ensures AlwaysWithin(host, floor) <==> floor == NOTHING
  {
    FloorDecides(host, floor);
    if forall c :: CreditFits(host, floor, c) {
      forall c ensures Part(floor, c) == 0 {
        FloorOfBudget(host, floor, c);
      }
      assert floor == Allocation(Part(floor, Cpu), Part(floor, Memory), Part(floor, Disk));
    }
  }

  // ----- the shortest such run

  /** No component is below zero, or below the budget where that is negative. */
  predicate NoCredit(host: Host, need: Allocation) {
    && need.cpu >= Min(0, Budget(host).cpu)
    && need.memory >= Min(0, Budget(host).memory)
    && need.disk >= Min(0, Budget(host).disk)
  }

  /** The ledger after u with need and v with other came, each checked, and u left. */
  ghost function Traded(host: Host, u: string, v: string, need: Allocation, other: Allocation): Ledger {
    LedgerAfter(host, map[], [Admit(u, need), Admit(v, other), Leave(u)])
  }

  ghost predicate TradesStayWithin(host: Host, need: Allocation) {
    forall u, v, other: Allocation ::
      u != v && other.NonNegative() ==> WithinBounds(host, Traded(host, u, v, need, other))
  }

  lemma TradedLedger(host: Host, u: string, v: string, need: Allocation, other: Allocation)
    requires u != v
    ensures Traded(host, u, v, need, other) ==
      var first := if Admissible(host, map[], need) then map[u := need] else map[];
      if Admissible(host, first, other) then map[v := other] else map[]
  {
    var events := [Admit(u, need), Admit(v, other), Leave(u)];
    assert events[..2] == [Admit(u, need), Admit(v, other)] && events[..2][..1] == [Admit(u, need)];
    assert events[..2][..1][..0] == [];
    var none: Ledger := map[];
    assert none[u := need] == map[u := need];
    var first: Ledger := if Admissible(host, map[], need) then map[u := need] else map[];
    assert LedgerAfter(host, map[], events[..2][..1]) == first;
    var second: Ledger := if Admissible(host, first, other) then first[v := other] else first;
    assert LedgerAfter(host, map[], events[..2]) == second;
    assert second - {u} == if Admissible(host, first, other) then map[v := other] else map[];
  }

  lemma SingleFits(host: Host, v: string, other: Allocation)
    ensures WithinBounds(host, map[v := other]) <==>
      && other.cpu <= Max(Budget(host).cpu, 0) && other.memory <= Max(Budget(host).memory, 0)
      && other.disk <= Max(Budget(host).disk, 0) && host.maxVms >= 1
  {
    SumOfOne(v, other);
  }

  lemma SecondAdmissible(host: Host, u: string, need: Allocation, other: Allocation)
    ensures Admissible(host, map[u := need], other) <==>
      && other.cpu <= Max(Budget(host).cpu - need.cpu, 0) && other.memory <= Max(Budget(host).memory - need.memory, 0)
      && other.disk <= Max(Budget(host).disk - need.disk, 0) && host.maxVms >= 2
  {
    SumOfOne(u, need);
  }

  lemma FirstAdmissible(host: Host, need: Allocation)
    ensures Admissible(host, map[], need) <==>
      && need.cpu <= Max(Budget(host).cpu, 0) && need.memory <= Max(Budget(host).memory, 0)
      && need.disk <= Max(Budget(host).disk, 0) && host.maxVms >= 1
  {
  }

  lemma HarmlessTrade(host: Host, u: string, v: string, need: Allocation, other: Allocation)
    requires u != v
    requires !Admissible(host, map[], need) || host.maxVms < 2 || NoCredit(host, need)
    ensures WithinBounds(host, Traded(host, u, v, need, other))
  {
    TradedLedger(host, u, v, need, other);
    EmptyLedgerFits(host);
    SingleFits(host, v, other);
    SecondAdmissible(host, u, need, other);
    FirstAdmissible(host, other);
  }

  /** A request that asks for exactly what the credit adds to one resource. */
  function Greedy(host: Host, need: Allocation): Allocation {
    if need.cpu < Min(0, Budget(host).cpu) then Allocation(Max(Budget(host).cpu, 0) + 1, 0, 0)
    else if need.memory < Min(0, Budget(host).memory) then Allocation(0, Max(Budget(host).memory, 0) + 1, 0)
    else Allocation(0, 0, Max(Budget(host).disk, 0) + 1)
  }

  lemma HarmfulTrade(host: Host, u: string, v: string, need: Allocation)
    requires u != v
    requires Admissible(host, map[], need) && host.maxVms >= 2 && !NoCredit(host, need)
    ensures !WithinBounds(host, Traded(host, u, v, need, Greedy(host, need)))
  {
    var other := Greedy(host, need);
    TradedLedger(host, u, v, need, other);
    SingleFits(host, v, other);
    SecondAdmissible(host, u, need, other);
  }

  /** A request that the empty host admits can make checked callers overcommit, by coming, letting a
      non-negative request in, and leaving, exactly when a second VM may come and it brings credit. */
  lemma CreditOvercommits(host: Host, need: Allocation)
    ensures TradesStayWithin(host, need) <==>
      !Admissible(host, map[], need) || host.maxVms < 2 || NoCredit(host, need)
  {
    if !Admissible(host, map[], need) || host.maxVms < 2 || NoCredit(host, need) {
      forall u, v, other: Allocation | u != v && other.NonNegative()
        ensures WithinBounds(host, Traded(host, u, v, need, other))
      {
        HarmlessTrade(host, u, v, need, other);
      }
    } else {
      HarmfulTrade(host, "u", "v", need);
      assert "u" != "v" && Greedy(host, need).NonNegative();
    }
  }

  /** On a host whose reservations fit its totals, a request is harmless exactly when it is not negative. */
  lemma NegativeOvercommits(host: Host, need: Allocation)
    requires Budget(host).NonNegative() && host.maxVms >= 2 && Admissible(host, map[], need)
    ensures TradesStayWithin(host, need) <==> need.NonNegative()
  {
    CreditOvercommits(host, need);
  }

  // ----- instances on a four-cpu host

  const SMALL_HOST := Host(4, [], 0, 0, 0, 0, 2)

  lemma SumOfOne(v: string, a: Allocation)
    ensures Sum(map[v := a]) == a
  {
    var empty: Ledger := map[];
    SumAdd(empty, v, a);
    assert empty[v := a] == map[v := a];
  }

  lemma SmallHostAdmits(ledger: Ledger, used: Allocation, need: Allocation)
    requires Sum(ledger) == used && |ledger| < 2
    requires need.cpu <= 4 - used.cpu && need.memory == need.disk == used.memory == used.disk == 0
    ensures Admissible(SMALL_HOST, ledger, need)
  {
    NoMembers([]);
  }

  lemma SmallHostOverfull(ledger: Ledger, used: Allocation)
    requires Sum(ledger) == used && used.cpu > 4
    ensures !WithinBounds(SMALL_HOST, ledger)
  {
    NoMembers([]);
  }

  lemma SumOfTwo(u: string, v: string, a: Allocation, b: Allocation)
    requires u != v
    ensures Sum(map[u := a][v := b]) == a.Plus(b)
  {
    SumOfOne(u, a);
    SumAdd(map[u := a], v, b);
  }

  /** Two checks before the two allocations overcommit a four-cpu host. */
  lemma CheckCheckAllocateAllocate(u: string, v: string, need: Allocation)
    requires u != v && need == Allocation(3, 0, 0)
    ensures Admissible(SMALL_HOST, map[], need)
    ensures !WithinBounds(SMALL_HOST, map[u := need][v := need])
  {
    SmallHostAdmits(map[], NOTHING, need);
    SumOfTwo(u, v, need, need);
    SmallHostOverfull(map[u := need][v := need], need.Plus(need));
  }

  lemma FirstReleased(u: string, v: string, a: Allocation, b: Allocation)
    requires u != v
    ensures Sum(map[u := a][v := b] - {u}) == b
  {
    assert map[u := a][v := b] - {u} == map[v := b];
    SumOfOne(v, b);
  }

  lemma SecondAdmitted(u: string, a: Allocation, b: Allocation)
    requires a == Allocation(-1, 0, 0) && b == Allocation(5, 0, 0)
    ensures Admissible(SMALL_HOST, map[u := a], b)
  {
    SumOfOne(u, a);
    SmallHostAdmits(map[u := a], a, b);
  }

  /** Without the sign condition even a checked run can overcommit: admit -1, admit 5, release the first. */
  lemma NegativeRequestOvercommits(u: string, v: string, a: Allocation, b: Allocation)
    requires u != v && a == Allocation(-1, 0, 0) && b == Allocation(5, 0, 0)
    ensures Admissible(SMALL_HOST, map[], a)
    ensures Admissible(SMALL_HOST, map[u := a], b)
    ensures !WithinBounds(SMALL_HOST, map[u := a][v := b] - {u})
  {
    SmallHostAdmits(map[], NOTHING, a);
    SecondAdmitted(u, a, b);
    FirstReleased(u, v, a, b);
    SmallHostOverfull(map[u := a][v := b] - {u}, b);
  }
}
