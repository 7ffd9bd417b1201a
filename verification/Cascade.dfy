/** Deleting sessions and VMs: the cascade, its frame, and what a crash between commits leaves behind. */
module Cascade {
  import opened Results
  import opened Store

  // ----- the cascade as one change

  /** The store without session s and everything that belongs to it. */
  function SessionDeleted(db: Db, s: string): Db {
    RecordsDeleted(db, s).(allocations := Without(db.allocations, VmsOf(db, s)))
  }

  /** The same, except that resource_allocations is left alone. */
  function RecordsDeleted(db: Db, s: string): Db {
    db.(sessions := db.sessions - {s},
        vms := VmsOutside(db.vms, s),
        proxies := Without(db.proxies, {s}),
        folders := Without(db.folders, {s}),
        rules := RulesOutside(db.rules, s))
  }

  function VmDeleted(db: Db, id: string): Db {
    db.(vms := db.vms - {id}, allocations := Without(db.allocations, {id}))
  }

  /** Nothing refers to s any more. */
  ghost predicate NoTraceOf(db: Db, s: string) {
    && s !in db.sessions && s !in db.proxies.rows && s !in db.folders.rows
    && (forall v :: v in db.vms ==> db.vms[v].sessionId != s)
    && (forall i :: i in db.rules.rows ==> db.rules.rows[i].sessionId != s)
  }

  ghost predicate SameExcept<K(!new), R>(before: map<K, R>, after: map<K, R>, gone: iset<K>) {
    forall k :: (k in after <==> k in before && k !in gone) && (k in after ==> after[k] == before[k])
  }

  /** After the cascade nothing refers to s, no allocation of its VMs is left, every other row is as it was,
      and repeating the call changes nothing. */
  lemma CascadeMeaning(db: Db, s: string)
    ensures var after := SessionDeleted(db, s);
      && NoTraceOf(after, s)
      && (forall v :: v in VmsOf(db, s) ==> v !in after.allocations.rows)
      && SessionDeleted(after, s) == after
      && after.audit == db.audit
    ensures var after := SessionDeleted(db, s);
      && SameExcept(db.sessions, after.sessions, iset{s})
      && SameExcept(db.vms, after.vms, iset v | v in VmsOf(db, s))
      && SameExcept(db.proxies.rows, after.proxies.rows, iset{s})
      && SameExcept(db.folders.rows, after.folders.rows, iset{s})
      && SameExcept(db.allocations.rows, after.allocations.rows, iset v | v in VmsOf(db, s))
      && SameExcept(db.rules.rows, after.rules.rows,
                    iset i | i in db.rules.rows && db.rules.rows[i].sessionId == s)
  {
    var after := SessionDeleted(db, s);
    assert VmsOf(after, s) == {};
    assert VmsOutside(after.vms, s) == after.vms;
    assert RulesOutside(after.rules, s).rows == after.rules.rows;
    assert after.proxies.rows - {s} == after.proxies.rows;
    assert after.folders.rows - {s} == after.folders.rows;
    assert after.sessions - {s} == after.sessions;
    assert after.allocations.rows - {} == after.allocations.rows;
  }

  /** After delete_vm neither the VM nor its allocation is left, and everything else is as it was. */
  lemma VmDeletedMeaning(db: Db, id: string)
    ensures var after := VmDeleted(db, id);
      && SameExcept(db.vms, after.vms, iset{id})
      && SameExcept(db.allocations.rows, after.allocations.rows, iset{id})
      && after == db.(vms := after.vms, allocations := db.allocations.(rows := after.allocations.rows))
  {
  }

  // ----- the cascade as a sequence of commits

  lemma {:induction false} ApplyAllAppend(db: Db, front: seq<Stmt>, last: Stmt)
    requires forall i, d :: 0 <= i < |front| ==> Apply(d, front[i]).Ok?
    ensures ApplyAll(db, front + [last]) ==
      var before := ApplyAll(db, front);
      if Apply(before, last).Ok? then Apply(before, last).value else before
    decreases |front|
  {
    var all := front + [last];
    if front == [] {
      assert all[1..] == [];
    } else {
      assert all[0] == front[0] && all[1..] == front[1..] + [last];
      ApplyAllAppend(Apply(db, front[0]).value, front[1..], last);
    }
  }

  function Named(vms: seq<string>): set<string> {
    set v | v in vms
  }

  /** The part of the store that the session statements may change. */
  lemma RemovalKeepsRest(db: Db, stmt: Stmt, s: string)
    requires stmt in SessionRemovals(s)
    ensures Apply(db, stmt).Ok?
    ensures var after := Apply(db, stmt).value;
      && after.allocations == db.allocations
      && RecordsDeleted(after, s) == RecordsDeleted(db, s)
      && VmsOf(after, s) <= VmsOf(db, s)
  {
    match stmt
    case RemoveVmsOf(_) =>
      assert VmsOutside(VmsOutside(db.vms, s), s) == VmsOutside(db.vms, s);
    case RemoveProxyOf(_) =>
      assert db.proxies.rows - {s} - {s} == db.proxies.rows - {s};
    case RemoveFolderOf(_) =>
      assert db.folders.rows - {s} - {s} == db.folders.rows - {s};
    case RemoveRulesOf(_) =>
      assert RulesOutside(RulesOutside(db.rules, s), s).rows == RulesOutside(db.rules, s).rows;
    case RemoveSession(_) =>
      assert db.sessions - {s} - {s} == db.sessions - {s};
  }

  lemma {:induction false} RemovalsKeepRest(db: Db, stmts: seq<Stmt>, s: string)
    requires forall i :: 0 <= i < |stmts| ==> stmts[i] in SessionRemovals(s)
    ensures var after := ApplyAll(db, stmts);
      && after.allocations == db.allocations
      && RecordsDeleted(after, s) == RecordsDeleted(db, s)
      && VmsOf(after, s) <= VmsOf(db, s)
    decreases |stmts|
  {
    if stmts != [] {
      RemovalKeepsRest(db, stmts[0], s);
      RemovalsKeepRest(Apply(db, stmts[0]).value, stmts[1..], s);
    }
  }

  lemma ApplyFirst(db: Db, first: Stmt, rest: seq<Stmt>)
    requires Apply(db, first).Ok?
    ensures ApplyAll(db, [first] + rest) == ApplyAll(Apply(db, first).value, rest)
  {
    assert ([first] + rest)[1..] == rest;
  }

  lemma ApplyLast(db: Db, last: Stmt)
    requires Apply(db, last).Ok?
    ensures ApplyAll(db, [last]) == Apply(db, last).value
  {
    assert [last][1..] == [];
  }

  lemma AllRemovals(db: Db, s: string)
    ensures ApplyAll(db, SessionRemovals(s)) == RecordsDeleted(db, s)
  {
    var a := Apply(db, RemoveVmsOf(s)).value;
    var b := Apply(a, RemoveProxyOf(s)).value;
    var c := Apply(b, RemoveFolderOf(s)).value;
    var d := Apply(c, RemoveRulesOf(s)).value;
    RemovalsInOrder(db, s, a, b, c, d);
  }

  lemma RemovalsInOrder(db: Db, s: string, a: Db, b: Db, c: Db, d: Db)
    requires Apply(db, RemoveVmsOf(s)) == Ok(a) && Apply(a, RemoveProxyOf(s)) == Ok(b)
    requires Apply(b, RemoveFolderOf(s)) == Ok(c) && Apply(c, RemoveRulesOf(s)) == Ok(d)
    ensures ApplyAll(db, SessionRemovals(s)) == Apply(d, RemoveSession(s)).value
  {
    ApplyLast(d, RemoveSession(s));
    var four, three: seq<Stmt> := [RemoveSession(s)], [RemoveRulesOf(s)] + [RemoveSession(s)];
    ApplyFirst(c, RemoveRulesOf(s), four);
    ApplyFirst(b, RemoveFolderOf(s), three);
    ApplyFirst(a, RemoveProxyOf(s), [RemoveFolderOf(s)] + three);
    ApplyFirst(db, RemoveVmsOf(s), [RemoveProxyOf(s)] + ([RemoveFolderOf(s)] + three));
    assert SessionRemovals(s) == [RemoveVmsOf(s)] + ([RemoveProxyOf(s)] + ([RemoveFolderOf(s)] + three));
  }

  lemma {:induction false} AllocationRemovalsAt(vms: seq<string>)
    ensures |AllocationRemovals(vms)| == |vms|
    ensures forall i :: 0 <= i < |vms| ==> AllocationRemovals(vms)[i] == RemoveAllocationOf(vms[i])
  {
    if vms != [] {
      AllocationRemovalsAt(vms[..|vms| - 1]);
    }
  }

  lemma {:induction false} RemoveAllocations(db: Db, vms: seq<string>)
    ensures ApplyAll(db, AllocationRemovals(vms)) == db.(allocations := Without(db.allocations, Named(vms)))
  {
    if vms == [] {
      assert db.allocations.rows - {} == db.allocations.rows;
    } else {
      var front, last := vms[..|vms| - 1], vms[|vms| - 1];
      RemoveAllocations(db, front);
      AllocationRemovalsAt(front);
      ApplyAllAppend(db, AllocationRemovals(front), RemoveAllocationOf(last));
      assert vms == front + [last];
      assert Named(vms) == Named(front) + {last};
      RemoveOneMore(db, Named(front), last);
    }
  }

  lemma RemoveOneMore(db: Db, gone: set<string>, last: string)
    ensures Apply(db.(allocations := Without(db.allocations, gone)), RemoveAllocationOf(last))
      == Ok(db.(allocations := Without(db.allocations, gone + {last})))
  {
    assert db.allocations.rows - gone - {last} == db.allocations.rows - (gone + {last});
  }

  lemma {:induction false} ApplyAllSplit(db: Db, a: seq<Stmt>, b: seq<Stmt>)
    requires forall i, d :: 0 <= i < |a| ==> Apply(d, a[i]).Ok?
    ensures ApplyAll(db, a + b) == ApplyAll(ApplyAll(db, a), b)
    decreases |a|
  {
    if a == [] {
      assert a + b == b;
    } else {
      assert (a + b)[0] == a[0] && (a + b)[1..] == a[1..] + b;
      ApplyAllSplit(Apply(db, a[0]).value, a[1..], b);
    }
  }

  lemma SessionRemovalsSucceed(s: string)
    ensures forall i, d :: 0 <= i < |SessionRemovals(s)| ==> Apply(d, SessionRemovals(s)[i]).Ok?
  {
  }

  /** All commits of delete_session together are the cascade. */
  lemma CommitsAreCascade(db: Db, s: string, order: seq<string>, now: string)
    requires Enumerates(order, VmsOf(db, s))
    ensures ApplyAll(db, Plan(db, DeleteSession(s, order), now).value) == SessionDeleted(db, s)
  {
    SessionRemovalsSucceed(s);
    ApplyAllSplit(db, SessionRemovals(s), AllocationRemovals(order));
    AllRemovals(db, s);
    RemoveAllocations(RecordsDeleted(db, s), order);
    assert Named(order) == VmsOf(db, s);
  }

  // ----- crashes between commits

  /** The store after the first k commits of delete_session. */
  function Interrupted(db: Db, s: string, order: seq<string>, k: nat): Db {
    ApplyAll(db, Take(SessionRemovals(s) + AllocationRemovals(order), k))
  }

  /** How many VM allocations the first k commits have removed. */
  function Cleared(order: seq<string>, k: nat): nat {
    if k <= 5 then 0 else if k - 5 < |order| then k - 5 else |order|
  }

  lemma InterruptedEarly(db: Db, s: string, order: seq<string>, k: nat)
    requires 0 < k <= 5
    ensures var left := Interrupted(db, s, order, k);
      && left.allocations == db.allocations
      && RecordsDeleted(left, s) == RecordsDeleted(db, s)
      && VmsOf(left, s) == {}
  {
    var first, more := RemoveVmsOf(s), SessionRemovals(s)[1..k];
    AllocationRemovalsAt(order);
    assert Take(SessionRemovals(s) + AllocationRemovals(order), k) == [first] + more;
    ApplyFirst(db, first, more);
    RemovalKeepsRest(db, first, s);
    RemovalsKeepRest(Apply(db, first).value, more, s);
    assert VmsOf(Apply(db, first).value, s) == {};
  }

  lemma InterruptedLate(db: Db, s: string, order: seq<string>, k: nat)
    requires k > 5
    ensures Interrupted(db, s, order, k) ==
      RecordsDeleted(db, s).(allocations := Without(db.allocations, Named(order[..Cleared(order, k)])))
  {
    var n := Cleared(order, k);
    AllocationRemovalsAt(order);
    AllocationRemovalsAt(order[..n]);
    assert Take(SessionRemovals(s) + AllocationRemovals(order), k) == SessionRemovals(s) + AllocationRemovals(order[..n]);
    SessionRemovalsSucceed(s);
    ApplyAllSplit(db, SessionRemovals(s), AllocationRemovals(order[..n]));
    AllRemovals(db, s);
    RemoveAllocations(RecordsDeleted(db, s), order[..n]);
  }

  lemma RecordsDeletedTwice(db: Db, s: string, left: Db)
    requires left == RecordsDeleted(db, s).(allocations := left.allocations)
    ensures VmsOf(left, s) == {}
    ensures RecordsDeleted(left, s) == RecordsDeleted(db, s).(allocations := left.allocations)
  {
    assert VmsOutside(left.vms, s) == left.vms;
    assert RulesOutside(left.rules, s).rows == left.rules.rows;
    assert left.proxies.rows - {s} == left.proxies.rows;
    assert left.folders.rows - {s} == left.folders.rows;
    assert left.sessions - {s} == left.sessions;
  }

  /** What a crash after k > 0 commits and a complete retry amount to. */
  lemma RetryOutcome(db: Db, s: string, order: seq<string>, k: nat)
    requires k > 0
    ensures SessionDeleted(Interrupted(db, s, order, k), s) ==
      RecordsDeleted(db, s).(allocations := Without(db.allocations, Named(order[..Cleared(order, k)])))
  {
    var left := Interrupted(db, s, order, k);
    if k <= 5 {
      InterruptedEarly(db, s, order, k);
      assert Named(order[..0]) == {};
    } else {
      InterruptedLate(db, s, order, k);
      RecordsDeletedTwice(db, s, left);
    }
    assert left.allocations.rows - {} == left.allocations.rows;
    assert Without(left.allocations, {}) == left.allocations;
  }

  /** Some captured VM whose allocation the interrupted call had not reached still had one. */
  predicate LeavesOrphans(db: Db, order: seq<string>, k: nat) {
    exists i :: Cleared(order, k) <= i < |order| && order[i] in db.allocations.rows
  }

  /** A crash and a retry restore the full effect on every table except resource_allocations,
      and there exactly when the crash came first or left no allocation of a captured VM. */
  lemma CrashThenRetry(db: Db, s: string, order: seq<string>, k: nat)
    requires Enumerates(order, VmsOf(db, s))
    ensures var retried, full := SessionDeleted(Interrupted(db, s, order, k), s), SessionDeleted(db, s);
      && retried.(allocations := full.allocations) == full
      && (retried == full <==> k == 0 || !LeavesOrphans(db, order, k))
  {
    if k == 0 {
      assert Take(SessionRemovals(s) + AllocationRemovals(order), 0) == [];
    } else {
      RetryOutcome(db, s, order, k);
      var n := Cleared(order, k);
      var kept, full := db.allocations.rows - Named(order[..n]), db.allocations.rows - VmsOf(db, s);
      assert VmsOf(db, s) == Named(order);
      NamedFrom(order, n);
      if LeavesOrphans(db, order, k) {
        var i :| n <= i < |order| && order[i] in db.allocations.rows;
        assert order[i] in kept && order[i] !in full;
      } else {
        assert forall i :: 0 <= i < n ==> order[..n][i] == order[i] && order[i] in Named(order[..n]);
        forall v ensures v in kept <==> v in full {
          if v in Named(order) && v !in Named(order[..n]) {
            var i :| 0 <= i < |order| && order[i] == v;
          }
        }
        assert kept == full;
      }
    }
  }

  lemma NamedFrom(order: seq<string>, n: nat)
    requires n <= |order|
    requires forall i, j :: 0 <= i < j < |order| ==> order[i] != order[j]
    ensures Named(order[..n]) <= Named(order)
    ensures forall i :: n <= i < |order| ==> order[i] in Named(order) && order[i] !in Named(order[..n])
  {
  }

  /** delete_vm can be interrupted anywhere and simply repeated. */
  lemma VmCrashThenRetry(db: Db, id: string, now: string, k: nat)
    ensures var stmts := Plan(db, DeleteVm(id), now).value;
      && ApplyAll(db, stmts) == VmDeleted(db, id)
      && VmDeleted(ApplyAll(db, Take(stmts, k)), id) == VmDeleted(db, id)
  {
    var a, b := RemoveAllocationOf(id), RemoveVm(id);
    var mid := db.(allocations := Without(db.allocations, {id}));
    assert [a, b] == [a] + [b] && [b] == [b] + [];
    ApplyFirst(db, a, [b]);
    ApplyFirst(mid, b, []);
    ApplyFirst(db, a, []);
    assert Take([a, b], k) == if k == 0 then [] else if k == 1 then [a] + [] else [a, b];
    assert db.allocations.rows - {id} - {id} == db.allocations.rows - {id};
    assert db.vms - {id} - {id} == db.vms - {id};
  }

  // ----- the audit log

  lemma {:induction false} ApplyAllKeepsAudit(db: Db, stmts: seq<Stmt>)
    ensures db.audit <= ApplyAll(db, stmts).audit
    decreases |stmts|
  {
    if stmts != [] && Apply(db, stmts[0]).Ok? {
      ApplyAllKeepsAudit(Apply(db, stmts[0]).value, stmts[1..]);
    }
  }

  /** Whatever follows, what the audit log holds stays there, in place. */
  lemma {:induction false} AuditOnlyGrows(events: seq<Event>, more: seq<Event>)
    ensures Run(events).audit <= Run(events + more).audit
  {
    if more == [] {
      assert events + more == events;
    } else {
      var front := more[..|more| - 1];
      AuditOnlyGrows(events, front);
      var all := events + more;
      assert all[..|all| - 1] == events + front;
      StepKeepsAudit(Run(events + front), all[|all| - 1]);
    }
  }

  lemma StepKeepsAudit(db: Db, e: Event)
    ensures db.audit <= Step(db, e).audit
  {
    var plan := Plan(db, e.call, e.now);
    if plan.Ok? {
      ApplyAllKeepsAudit(db, Take(plan.value, e.commits));
    }
  }
}
