/** Per-session network interfaces: a vnet name that is never reused and a MAC unique among live ones. */
module Bridge {
  import opened Results
  import opened Ordered
  import opened Text

  const MAX_MAC_ALLOCATION_RETRIES := 1000

  datatype Interface = Interface(vnet: string, mac: string)

  datatype BridgeState = BridgeState(
    sessions: map<string, Interface>, vnets: set<string>, macs: set<string>, next: nat)

  function VnetName(index: nat): string {
    "vnet" + NatText(index)
  }

  // ----- the MAC search

  datatype Search = Search(found: Result<string>, used: nat)

  /** The first factory output, lower-cased, that no live interface has; at most budget are drawn. */
  function FirstUnused(outputs: seq<string>, live: set<string>, budget: nat): Search {
    if budget == 0 then Search(Err(RetriesExhausted), 0)
    else if outputs == [] then Search(Err(FactoryExhausted), 0)
    else
      var candidate := Lower(outputs[0]);
      if candidate !in live then Search(Ok(candidate), 1)
      else
        var later := FirstUnused(outputs[1..], live, budget - 1);
        later.(used := later.used + 1)
  }

  function Window(outputs: seq<string>, budget: nat): seq<string> {
    if |outputs| <= budget then outputs else outputs[..budget]
  }

  /** The search fails exactly when every output it may draw is live, and otherwise takes the first that is not. */
  lemma {:induction false} SearchMeaning(outputs: seq<string>, live: set<string>, budget: nat)
    ensures var s, window := FirstUnused(outputs, live, budget), Window(outputs, budget);
      && s.used <= |window|
      && (forall i :: 0 <= i < s.used - 1 ==> Lower(outputs[i]) in live)
      && (s.found.Ok? ==> s.used > 0 && s.found.value == Lower(outputs[s.used - 1]) && s.found.value !in live)
      && (s.found.Err? ==> s.used == |window| && forall i :: 0 <= i < |window| ==> Lower(window[i]) in live)
      && (s.found.Err? ==> s.found.error == if budget <= |outputs| then RetriesExhausted else FactoryExhausted)
  {
    if budget > 0 && outputs != [] && Lower(outputs[0]) in live {
      var rest := outputs[1..];
      SearchMeaning(rest, live, budget - 1);
      var window, later := Window(outputs, budget), FirstUnused(rest, live, budget - 1);
      assert Window(rest, budget - 1) == window[1..];
      assert forall i :: 0 < i < |outputs| ==> outputs[i] == rest[i - 1];
      assert forall i :: 0 < i < |window| ==> window[i] == window[1..][i - 1];
    }
  }

  /** Pigeonhole: more distinct lower-cased outputs than live MACs guarantee success. */
  lemma EnoughDistinctOutputs(outputs: seq<string>, live: set<string>, budget: nat)
    requires |set o | o in Window(outputs, budget) :: Lower(o)| > |live|
    ensures FirstUnused(outputs, live, budget).found.Ok?
  {
    SearchMeaning(outputs, live, budget);
    var window := Window(outputs, budget);
    if FirstUnused(outputs, live, budget).found.Err? {
      SubsetSize(set o | o in window :: Lower(o), live);
    }
  }

  // ----- one call

  datatype Outcome = Outcome(state: BridgeState, unread: seq<string>, result: Result<Interface>)

  /** allocate_vm_interface when the factory's future outputs are the given ones. */
  function Allocated(s: BridgeState, session: string, outputs: seq<string>): Outcome {
    if Strip(session) == "" then Outcome(s, outputs, Err(ValueError))
    else if session in s.sessions then Outcome(s, outputs, Ok(s.sessions[session]))
    else
      var search := FirstUnused(outputs, s.macs, MAX_MAC_ALLOCATION_RETRIES);
      SearchMeaning(outputs, s.macs, MAX_MAC_ALLOCATION_RETRIES);
      var unread := outputs[search.used..];
      match search.found
      case Err(error) => Outcome(s.(next := s.next + 1), unread, Err(error))
      case Ok(mac) =>
        var granted := Interface(VnetName(s.next), mac);
        Outcome(
          BridgeState(
            s.sessions[session := granted], s.vnets + {granted.vnet}, s.macs + {mac}, s.next + 1),
          unread, Ok(granted))
  }

  function Deallocated(s: BridgeState, session: string): BridgeState {
    if session in s.sessions
    then
      var released := s.sessions[session];
      s.(sessions := s.sessions - {session}, vnets := s.vnets - {released.vnet}, macs := s.macs - {released.mac})
    else s
  }

  // ----- the representation invariant

  ghost predicate ImagesAgree(s: BridgeState) {
    && s.vnets == (set k | k in s.sessions :: s.sessions[k].vnet)
    && s.macs == (set k | k in s.sessions :: s.sessions[k].mac)
  }

  ghost predicate OneOwner(s: BridgeState) {
    forall j, k :: j in s.sessions && k in s.sessions && j != k ==>
      s.sessions[j].vnet != s.sessions[k].vnet && s.sessions[j].mac != s.sessions[k].mac
  }

  /** name was handed out at an index below bound. */
  ghost predicate IndexedBelow(name: string, bound: nat) {
    exists i :: 0 <= i < bound && name == VnetName(i)
  }

  ghost predicate Consistent(s: BridgeState) {
    && ImagesAgree(s)
    && OneOwner(s)
    && forall k :: k in s.sessions ==> IndexedBelow(s.sessions[k].vnet, s.next)
  }

  /** A name is vnet followed by its index in decimal. */
  lemma VnetNameReadBack(i: nat)
    ensures VnetName(i)[..4] == "vnet" && VnetName(i)[4..] == IntText(i) && IntValue(VnetName(i)[4..]) == Some(i)
  {
    assert VnetName(i)[4..] == NatText(i) == IntText(i);
    IntValueOfText(i);
  }

  lemma VnetNameInjective(i: nat, j: nat)
    requires VnetName(i) == VnetName(j)
    ensures i == j
  {
    assert VnetName(i)[4..] == NatText(i) && VnetName(j)[4..] == NatText(j);
    NatValueOfText(i);
    NatValueOfText(j);
  }

  lemma NextNameIsNew(name: string, bound: nat)
    requires IndexedBelow(name, bound)
    ensures name != VnetName(bound) && IndexedBelow(name, bound + 1)
  {
    var i :| 0 <= i < bound && name == VnetName(i);
    if name == VnetName(bound) {
      VnetNameInjective(i, bound);
    }
  }

  lemma AllocationKeepsConsistency(s: BridgeState, session: string, outputs: seq<string>)
    requires Consistent(s)
    ensures Consistent(Allocated(s, session, outputs).state)
  {
    forall k | k in s.sessions
      ensures s.sessions[k].vnet != VnetName(s.next) && IndexedBelow(s.sessions[k].vnet, s.next + 1)
    {
      NextNameIsNew(s.sessions[k].vnet, s.next);
    }
    var after := Allocated(s, session, outputs);
    if after.result.Ok? && after.state != s {
      SearchMeaning(outputs, s.macs, MAX_MAC_ALLOCATION_RETRIES);
      GrantKeepsConsistency(s, session, after.result.value.mac);
    }
  }

  lemma GrantKeepsConsistency(s: BridgeState, session: string, mac: string)
    requires Consistent(s) && session !in s.sessions && mac !in s.macs
    ensures var granted := Interface(VnetName(s.next), mac);
      Consistent(BridgeState(
        s.sessions[session := granted], s.vnets + {granted.vnet}, s.macs + {mac}, s.next + 1))
  {
    var granted := Interface(VnetName(s.next), mac);
    var after := s.sessions[session := granted];
    assert session in after && after[session] == granted;
    forall k | k in s.sessions
      ensures s.sessions[k].vnet != granted.vnet && s.sessions[k].mac != mac
      ensures IndexedBelow(s.sessions[k].vnet, s.next + 1)
    {
      NextNameIsNew(s.sessions[k].vnet, s.next);
      assert s.sessions[k].mac in s.macs;
    }
    assert forall k :: k in after <==> k in s.sessions || k == session;
    assert forall k :: k in s.sessions ==> after[k] == s.sessions[k];
    ImageOfUpdate(s.sessions, session, granted);
    assert IndexedBelow(granted.vnet, s.next + 1);
  }

  lemma ImageOfUpdate(m: map<string, Interface>, session: string, granted: Interface)
    requires session !in m
    ensures var after := m[session := granted];
      && (set k | k in after :: after[k].vnet) == (set k | k in m :: m[k].vnet) + {granted.vnet}
      && (set k | k in after :: after[k].mac) == (set k | k in m :: m[k].mac) + {granted.mac}
  {
    var after := m[session := granted];
    assert session in after;
    assert forall k :: k in m ==> k in after && after[k] == m[k];
  }

  lemma DeallocationKeepsConsistency(s: BridgeState, session: string)
    requires Consistent(s)
    ensures Consistent(Deallocated(s, session))
  {
    if session in s.sessions {
      var after := s.sessions - {session};
      assert forall k :: k in after <==> k in s.sessions && k != session;
    }
  }

  // ----- the manager

  class BridgeManager {
    var sessionInterfaces: map<string, Interface>
    var allocatedVnets: set<string>
    var allocatedMacs: set<string>
    var nextVnetIndex: nat
    /** What the MAC factory will return, call by call; after the last it raises StopIteration. */
    var factory: seq<string>

    ghost function State(): BridgeState
      reads this
    {
      BridgeState(sessionInterfaces, allocatedVnets, allocatedMacs, nextVnetIndex)
    }

    ghost predicate Valid()
      reads this
    {
      Consistent(State())
    }

    constructor (outputs: seq<string>)
      ensures Valid() && State() == BridgeState(map[], {}, {}, 0) && factory == outputs
    {
      sessionInterfaces, allocatedVnets, allocatedMacs, nextVnetIndex := map[], {}, {}, 0;
      factory := outputs;
    }

    method AllocateVmInterface(session: string) returns (r: Result<Interface>)
      requires Valid()
      modifies this
      ensures Valid()
      ensures Outcome(State(), factory, r) == Allocated(old(State()), session, old(factory))
    {
      ghost var before, outputs := State(), factory;
      if Strip(session) == "" {
        return Err(ValueError);
      }
      if session in sessionInterfaces {
        return Ok(sessionInterfaces[session]);
      }
      r := GrantInterface(session);
      AllocationKeepsConsistency(before, session, outputs);
    }

    /** The part of allocate_vm_interface that serves a session without an interface. */
    method GrantInterface(session: string) returns (r: Result<Interface>)
      requires Strip(session) != "" && session !in sessionInterfaces
      modifies this
      ensures Outcome(State(), factory, r) == Allocated(old(State()), session, old(factory))
    {
      var vnet := AllocateVnetName();
      var mac := AllocateUniqueMac();
      if mac.Err? {
        return Err(mac.error);
      }
      var granted := Interface(vnet, mac.value);
      sessionInterfaces := sessionInterfaces[session := granted];
      allocatedVnets := allocatedVnets + {vnet};
      allocatedMacs := allocatedMacs + {mac.value};
      return Ok(granted);
    }

    method DeallocateVmInterface(session: string)
      requires Valid()
      modifies this
      ensures Valid()
      ensures State() == Deallocated(old(State()), session) && factory == old(factory)
    {
      DeallocationKeepsConsistency(State(), session);
      if session !in sessionInterfaces {
        return;
      }
      var released := sessionInterfaces[session];
      sessionInterfaces := sessionInterfaces - {session};
      allocatedVnets := allocatedVnets - {released.vnet};
      allocatedMacs := allocatedMacs - {released.mac};
    }

    method AllocateVnetName() returns (candidate: string)
      modifies this`nextVnetIndex
      ensures candidate == VnetName(old(nextVnetIndex)) && nextVnetIndex == old(nextVnetIndex) + 1
    {
      candidate := VnetName(nextVnetIndex);
      nextVnetIndex := nextVnetIndex + 1;
    }

    method AllocateUniqueMac() returns (r: Result<string>)
      modifies this`factory
      ensures var search := FirstUnused(old(factory), allocatedMacs, MAX_MAC_ALLOCATION_RETRIES);
        search.used <= |old(factory)| && r == search.found && factory == old(factory)[search.used..]
    {
      ghost var outputs := factory;
      for i := 0 to MAX_MAC_ALLOCATION_RETRIES
        invariant i <= |outputs| && factory == outputs[i..]
        invariant var rest := FirstUnused(factory, allocatedMacs, MAX_MAC_ALLOCATION_RETRIES - i);
          FirstUnused(outputs, allocatedMacs, MAX_MAC_ALLOCATION_RETRIES) == rest.(used := rest.used + i)
      {
        if factory == [] {
          return Err(FactoryExhausted);
        }
        var candidate := Lower(factory[0]);
        factory := factory[1..];
        if candidate !in allocatedMacs {
          return Ok(candidate);
        }
      }
      return Err(RetriesExhausted);
    }
  }

  // ----- what a call promises

  /** When a call succeeds, and what a refused call leaves behind. */
  lemma AllocationDecided(s: BridgeState, session: string, outputs: seq<string>)
    ensures var after, window := Allocated(s, session, outputs), Window(outputs, 1000);
      && (after.result.Ok? <==>
          !AllBlank(session, IsSpace) && (session in s.sessions || exists o :: o in window && Lower(o) !in s.macs))
      && (after.result.Err? ==> after.state.(next := s.next) == s)
      && (after.result.Err? ==> after.state.next == s.next + if AllBlank(session, IsSpace) then 0 else 1)
    ensures Allocated(s, session, outputs).result.Err? ==>
      var error := Allocated(s, session, outputs).result.error;
      if AllBlank(session, IsSpace) then error == ValueError
      else error == if |outputs| >= 1000 then RetriesExhausted else FactoryExhausted
  {
    StripBlank(session);
    SearchMeaning(outputs, s.macs, MAX_MAC_ALLOCATION_RETRIES);
    var search := FirstUnused(outputs, s.macs, MAX_MAC_ALLOCATION_RETRIES);
    var window := Window(outputs, MAX_MAC_ALLOCATION_RETRIES);
    if search.found.Ok? {
      assert outputs[search.used - 1] == window[search.used - 1];
    }
  }

  /** A fresh grant: the next name, the first output nobody has, and nothing else touched. */
  lemma FreshGrant(s: BridgeState, session: string, outputs: seq<string>) returns (drawn: nat)
    requires session !in s.sessions && Allocated(s, session, outputs).result.Ok?
    ensures var after := Allocated(s, session, outputs);
      && 0 < drawn <= |Window(outputs, MAX_MAC_ALLOCATION_RETRIES)|
      && after.unread == outputs[drawn..]
      && after.result.value.mac == Lower(outputs[drawn - 1]) && after.result.value.mac !in s.macs
      && (forall i :: 0 <= i < drawn - 1 ==> Lower(outputs[i]) in s.macs)
      && after.result.value.vnet == VnetName(s.next)
      && session in after.state.sessions && after.state.sessions[session] == after.result.value
      && after.state.sessions - {session} == s.sessions
  {
    SearchMeaning(outputs, s.macs, MAX_MAC_ALLOCATION_RETRIES);
    drawn := FirstUnused(outputs, s.macs, MAX_MAC_ALLOCATION_RETRIES).used;
    var after := Allocated(s, session, outputs);
    assert s.sessions[session := after.result.value] - {session} == s.sessions;
  }

  /** A live session keeps its interface: asking again returns it, draws nothing and changes nothing. */
  lemma LiveSessionKept(s: BridgeState, session: string, outputs: seq<string>)
    requires session in s.sessions && !AllBlank(session, IsSpace)
    ensures Allocated(s, session, outputs) == Outcome(s, outputs, Ok(s.sessions[session]))
  {
    StripBlank(session);
  }

  /** A release takes away the session's entry, its name and its MAC, and nothing else. */
  lemma ReleaseMeaning(s: BridgeState, session: string)
    requires Consistent(s)
    ensures var after := Deallocated(s, session);
      && after.sessions == s.sessions - {session} && after.next == s.next
      && (session !in s.sessions ==> after == s)
      && (session in s.sessions ==>
            && s.sessions[session].vnet in s.vnets && after.vnets == s.vnets - {s.sessions[session].vnet}
            && s.sessions[session].mac in s.macs && after.macs == s.macs - {s.sessions[session].mac})
  {
    if session !in s.sessions {
      assert s.sessions - {session} == s.sessions;
    }
  }

  /** Releasing a fresh grant undoes everything but the step of the name counter. */
  lemma DetachUndoesAttach(s: BridgeState, session: string, outputs: seq<string>)
    requires Consistent(s) && session !in s.sessions && Allocated(s, session, outputs).result.Ok?
    ensures Deallocated(Allocated(s, session, outputs).state, session) == s.(next := s.next + 1)
  {
    var drawn := FreshGrant(s, session, outputs);
    forall k | k in s.sessions ensures s.sessions[k].vnet != VnetName(s.next) {
      NextNameIsNew(s.sessions[k].vnet, s.next);
    }
    assert VnetName(s.next) !in s.vnets;
  }

  /** Pigeonhole for a call: enough distinct outputs among those it may draw make it succeed. */
  lemma DistinctOutputsSuffice(s: BridgeState, session: string, outputs: seq<string>)
    requires Consistent(s) && Strip(session) != ""
    requires |set o | o in Window(outputs, MAX_MAC_ALLOCATION_RETRIES) :: Lower(o)| > |s.sessions|
    ensures Allocated(s, session, outputs).result.Ok?
  {
    ImageSize(s.sessions);
    assert s.macs == MacsOf(s.sessions);
    EnoughDistinctOutputs(outputs, s.macs, MAX_MAC_ALLOCATION_RETRIES);
  }

  function MacsOf(m: map<string, Interface>): set<string> {
    set k | k in m :: m[k].mac
  }

  lemma {:induction false} ImageSize(m: map<string, Interface>)
    ensures |MacsOf(m)| <= |m|
    decreases |m|
  {
    if m != map[] {
      assert m.Keys != {};
      var k := Pick(m.Keys);
      var rest := m - {k};
      ImageSize(rest);
      assert forall j :: j in m ==> j == k || j in rest;
      assert MacsOf(m) <= MacsOf(rest) + {m[k].mac};
      SubsetSize(MacsOf(m), MacsOf(rest) + {m[k].mac});
    }
  }

  /** Asking again for a live session returns the same interface, draws nothing and changes nothing. */
  lemma AllocationIdempotent(s: BridgeState, session: string, outputs: seq<string>, more: seq<string>)
    requires Allocated(s, session, outputs).result.Ok?
    ensures var first := Allocated(s, session, outputs);
      Allocated(first.state, session, more) == Outcome(first.state, more, first.result)
  {
  }

  // ----- whole runs

  datatype Call = Attach(session: string, outputs: seq<string>) | Detach(session: string)

  /** The bridge together with the vnet names granted so far by fresh allocations, in order. */
  datatype Trace = Trace(state: BridgeState, issued: seq<string>)

  /** Every call meets a factory with arbitrary further outputs. */
  function Called(t: Trace, call: Call): Trace {
    match call
    case Attach(session, outputs) =>
      var after := Allocated(t.state, session, outputs);
      Trace(
        after.state,
        if after.result.Ok? && session !in t.state.sessions then t.issued + [after.result.value.vnet] else t.issued)
    case Detach(session) => t.(state := Deallocated(t.state, session))
  }

  function CalledAll(calls: seq<Call>): Trace {
    if calls == [] then Trace(BridgeState(map[], {}, {}, 0), [])
    else Called(CalledAll(calls[..|calls| - 1]), calls[|calls| - 1])
  }

  ghost predicate NeverReissued(t: Trace) {
    && (forall i, j :: 0 <= i < j < |t.issued| ==> t.issued[i] != t.issued[j])
    && (forall i :: 0 <= i < |t.issued| ==> IndexedBelow(t.issued[i], t.state.next))
    && (forall k :: k in t.state.sessions ==> t.state.sessions[k].vnet in t.issued)
  }

  lemma GrantNeverReissues(t: Trace, session: string, mac: string)
    requires NeverReissued(t) && session !in t.state.sessions
    ensures var granted := Interface(VnetName(t.state.next), mac);
      var after := t.state.(sessions := t.state.sessions[session := granted], next := t.state.next + 1);
      NeverReissued(Trace(after, t.issued + [granted.vnet]))
  {
    var issued := t.issued + [VnetName(t.state.next)];
    forall i | 0 <= i < |t.issued|
      ensures t.issued[i] != VnetName(t.state.next) && IndexedBelow(t.issued[i], t.state.next + 1)
    {
      NextNameIsNew(t.issued[i], t.state.next);
    }
    assert IndexedBelow(VnetName(t.state.next), t.state.next + 1);
    assert issued[|t.issued|] == VnetName(t.state.next);
    assert forall i :: 0 <= i < |t.issued| ==> issued[i] == t.issued[i];
  }

  lemma CounterNeverReissues(t: Trace)
    requires NeverReissued(t)
    ensures NeverReissued(t.(state := t.state.(next := t.state.next + 1)))
  {
    forall i | 0 <= i < |t.issued| ensures IndexedBelow(t.issued[i], t.state.next + 1) {
      NextNameIsNew(t.issued[i], t.state.next);
    }
  }

  lemma CallNeverReissues(t: Trace, call: Call)
    requires NeverReissued(t)
    ensures NeverReissued(Called(t, call))
  {
    if call.Attach? {
      var after := Allocated(t.state, call.session, call.outputs);
      if call.session !in t.state.sessions && Strip(call.session) != "" {
        if after.result.Ok? {
          GrantNeverReissues(t, call.session, after.result.value.mac);
        } else {
          CounterNeverReissues(t);
        }
      }
    }
  }

  /** After any calls the collections agree, owners are unique, and no name was ever granted twice. */
  lemma {:induction false} RunInvariant(calls: seq<Call>)
    ensures Consistent(CalledAll(calls).state) && NeverReissued(CalledAll(calls))
  {
    if calls != [] {
      var before, call := CalledAll(calls[..|calls| - 1]), calls[|calls| - 1];
      RunInvariant(calls[..|calls| - 1]);
      CallNeverReissues(before, call);
      if call.Attach? {
        AllocationKeepsConsistency(before.state, call.session, call.outputs);
      } else {
        DeallocationKeepsConsistency(before.state, call.session);
      }
    }
  }
}
