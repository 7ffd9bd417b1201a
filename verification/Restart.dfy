/** The ledger and the store side by side: what a restart, which rebuilds the one from the other, can lose. */
module Restart {
  import opened Results
  import opened Values
  import opened Store
  import opened Coherence
  import opened Capacity
  import opened Cascade
  import opened Reconcile

  datatype Live = Live(ledger: Ledger, db: Db)

  datatype Op =
    | Start(id: string, session: string, image: string, need: Allocation, now: string)
    | Stop(id: string)
    | Update(id: string, updates: Object)
    | End(session: string, vmOrder: seq<string>)
    | Other(call: Call, now: string)
    | Crash(e: Event, order: seq<string>)   // the call is cut short, the process restarts and reconciles

  predicate ActiveStatus(status: string) {
    status in {"running", "creating"}
  }

  /** What the caller owes: VM records stay active and numeric and keep their ids. */
  predicate Disciplined(call: Call) {
    match call
    case CreateVm(obj) => NumericRecord(obj) && ActiveStatus(TextColumn(obj, "status", "creating"))
    case UpdateVm(id, updates) =>
      && Agrees(updates, "id", id) && NumericRecord(updates)
      && ("status" in updates ==> ActiveStatus(PyStr(updates["status"])))
    case _ => true
  }

  predicate OnVms(call: Call) {
    call.CreateVm? || call.UpdateVm? || call.DeleteVm? || call.DeleteSession?
  }

  /** Live updates leave the resources alone, and calls on VMs go through the ledger. */
  predicate Proper(op: Op) {
    match op
    case Update(id, updates) =>
      Disciplined(UpdateVm(id, updates)) && {"cpu_cores", "memory_mb", "disk_gb"} !! updates.Keys
    case Other(call, _) => !OnVms(call)
    case Crash(e, _) => Disciplined(e.call)
    case _ => true
  }

  function Recorded(op: Op): Call
    requires op.Start?
  {
    CreateVm(ManagerRecord(op.id, op.session, op.image, op.need.cpu, op.need.memory, op.need.disk))
  }

  /** create_vm returns instead of raising. */
  predicate Accepted(db: Db, id: string, need: Allocation) {
    id !in db.vms && FitsInt64(need.cpu) && FitsInt64(need.memory) && FitsInt64(need.disk)
  }

  /** Check, allocate and record, giving the allocation back if create_vm raises; release and delete. */
  ghost function Operated(host: Host, m: Live, op: Op): Live {
    match op
    case Start(id, session, image, need, now) =>
      if id in m.ledger || !Admissible(host, m.ledger, need) then m
      else
        Live(if Accepted(m.db, id, need) then m.ledger[id := need] else m.ledger, Completed(m.db, Recorded(op), now))
    case Stop(id) => Live(m.ledger - {id}, Completed(m.db, DeleteVm(id), ""))
    case Update(id, updates) => Live(m.ledger, Completed(m.db, UpdateVm(id, updates), ""))
    case End(session, vmOrder) =>
      Live(m.ledger - VmsOf(m.db, session), Completed(m.db, DeleteSession(session, vmOrder), ""))
    case Other(call, now) => Live(m.ledger, Completed(m.db, call, now))
    case Crash(e, order) =>
      var after := Step(m.db, e);
      if Enumerates(order, ActiveVms(after).Keys) then Live(Reconciled(after, order), after) else m
  }

  ghost function OperatedAll(host: Host, ops: seq<Op>): Live {
    if ops == [] then Live(map[], EMPTY) else Operated(host, OperatedAll(host, ops[..|ops| - 1]), ops[|ops| - 1])
  }

  // ----- what the store keeps

  predicate AllActive(db: Db) {
    forall id :: id in db.vms ==> ActiveStatus(db.vms[id].status)
  }

  ghost predicate StoreSound(db: Db) {
    Written(db) && Holds(db, VmId) && PayloadsNumeric(db) && AllActive(db)
  }

  predicate ActiveStmts(stmts: seq<Stmt>) {
    forall i :: 0 <= i < |stmts| && (stmts[i].InsertVm? || stmts[i].SetVm?) ==> ActiveStatus(stmts[i].vm.status)
  }

  lemma StmtKeepsActive(db: Db, stmt: Stmt)
    requires AllActive(db) && Apply(db, stmt).Ok?
    requires (stmt.InsertVm? || stmt.SetVm?) ==> ActiveStatus(stmt.vm.status)
    ensures AllActive(Apply(db, stmt).value)
  {
  }

  lemma {:induction false} StmtsKeepActive(db: Db, stmts: seq<Stmt>)
    requires AllActive(db) && ActiveStmts(stmts)
    ensures AllActive(ApplyAll(db, stmts))
    decreases |stmts|
  {
    if stmts != [] && Apply(db, stmts[0]).Ok? {
      StmtKeepsActive(db, stmts[0]);
      StmtsKeepActive(Apply(db, stmts[0]).value, stmts[1..]);
    }
  }

  lemma MergedActive(id: string, r: VmRow, updates: Object)
    requires VmWritten(r) && ActiveStatus(r.status) && VmRowFrom(VmView(id, r) + updates, "", "").Ok?
    requires "status" in updates ==> ActiveStatus(PyStr(updates["status"]))
    ensures ActiveStatus(VmRowFrom(VmView(id, r) + updates, "", "").value.status)
  {
    VmViewAgrees(id, r);
  }

  lemma PlanActive(db: Db, call: Call, now: string)
    requires StoreSound(db) && Disciplined(call) && Plan(db, call, now).Ok?
    ensures ActiveStmts(Plan(db, call, now).value)
  {
    if call.UpdateVm? {
      if call.id in db.vms {
        MergedActive(call.id, db.vms[call.id], call.updates);
      }
    } else if !call.CreateVm? {
      QuietPlan(db, call, now);
    }
  }

  /** Other calls store no VM row. */
  lemma QuietPlan(db: Db, call: Call, now: string)
    requires !call.CreateVm? && !call.UpdateVm? && Plan(db, call, now).Ok?
    ensures forall i :: 0 <= i < |Plan(db, call, now).value| ==>
      !Plan(db, call, now).value[i].InsertVm? && !Plan(db, call, now).value[i].SetVm?
  {
    if call.DeleteSession? {
      AllocationRemovalsHarmless(call.vmOrder);
    }
  }

  lemma StepKeepsActive(db: Db, e: Event)
    requires StoreSound(db) && Disciplined(e.call)
    ensures AllActive(Step(db, e))
  {
    var plan := Plan(db, e.call, e.now);
    if plan.Ok? {
      PlanActive(db, e.call, e.now);
      StmtsKeepActive(db, Take(plan.value, e.commits));
    }
  }

  lemma StepKeepsSound(db: Db, e: Event)
    requires StoreSound(db) && Disciplined(e.call)
    ensures StoreSound(Step(db, e))
  {
    StepKeepsWritten(db, e);
    StepDecides(db, e, VmId);
    StepKeepsPayloads(db, e);
    StepKeepsActive(db, e);
  }

  lemma CallKeepsSound(db: Db, call: Call, now: string)
    requires StoreSound(db) && Disciplined(call)
    ensures StoreSound(Completed(db, call, now))
  {
    var e := Whole(db, call, now);
    CompletedIsStep(db, call, now, e.commits);
    StepKeepsSound(db, e);
  }

  // ----- what each call does to the expected ledger

  lemma RecordedRow(op: Op) returns (row: VmRow)
    requires op.Start? && FitsInt64(op.need.cpu) && FitsInt64(op.need.memory) && FitsInt64(op.need.disk)
    ensures VmRowFrom(Recorded(op).obj, "creating", op.now) == Ok(row)
    ensures row.status == "creating" && Allocation(row.cpu, row.memory, row.disk) == op.need
  {
    row := VmRowFrom(Recorded(op).obj, "creating", op.now).value;
  }

  lemma RecordedExpected(db: Db, op: Op)
    requires op.Start? && Accepted(db, op.id, op.need)
    ensures ExpectedLedger(Completed(db, Recorded(op), op.now))
      == if op.id == "" then ExpectedLedger(db) else ExpectedLedger(db)[op.id := op.need]
  {
    var row := RecordedRow(op);
    CompletedOne(db, Recorded(op), op.now, InsertVm(op.id, row));
    InsertedExpected(db, op.id, row);
  }

  lemma InsertedExpected(db: Db, id: string, row: VmRow)
    requires id !in db.vms && ActiveStatus(row.status)
    ensures ExpectedLedger(db.(vms := db.vms[id := row])) ==
      if id == "" then ExpectedLedger(db) else ExpectedLedger(db)[id := Allocation(row.cpu, row.memory, row.disk)]
  {
  }

  lemma RefusedRecord(db: Db, op: Op)
    requires op.Start? && !Accepted(db, op.id, op.need)
    ensures Completed(db, Recorded(op), op.now) == db
  {
    ManagerRecordNumeric(op.id, op.session, op.image, op.need.cpu, op.need.memory, op.need.disk);
    if VmRowFrom(Recorded(op).obj, "creating", op.now).Ok? {
      CompletedOne(db, Recorded(op), op.now, InsertVm(op.id, VmRowFrom(Recorded(op).obj, "creating", op.now).value));
    }
  }

  lemma SameResources(id: string, r: VmRow, updates: Object) returns (after: VmRow)
    requires VmWritten(r) && VmRowFrom(VmView(id, r) + updates, "", "").Ok?
    requires {"cpu_cores", "memory_mb", "disk_gb"} !! updates.Keys
    ensures VmRowFrom(VmView(id, r) + updates, "", "") == Ok(after)
    ensures (after.cpu, after.memory, after.disk) == (r.cpu, r.memory, r.disk)
  {
    VmViewAgrees(id, r);
    after := VmRowFrom(VmView(id, r) + updates, "", "").value;
    assert "cpu_cores" !in updates && "memory_mb" !in updates && "disk_gb" !in updates;
  }

  lemma ReplacedExpected(db: Db, id: string, row: VmRow)
    requires id in db.vms && ActiveStatus(db.vms[id].status) && ActiveStatus(row.status)
    requires (row.cpu, row.memory, row.disk) == (db.vms[id].cpu, db.vms[id].memory, db.vms[id].disk)
    ensures ExpectedLedger(db.(vms := db.vms[id := row])) == ExpectedLedger(db)
  {
  }

  lemma UpdatedExpected(db: Db, id: string, updates: Object)
    requires StoreSound(db) && Proper(Update(id, updates))
    ensures ExpectedLedger(Completed(db, UpdateVm(id, updates), "")) == ExpectedLedger(db)
  {
    if id in db.vms && VmRowFrom(VmView(id, db.vms[id]) + updates, "", "").Ok? {
      var row := SameResources(id, db.vms[id], updates);
      MergedActive(id, db.vms[id], updates);
      StoredVm(db, id, updates, row);
      ReplacedExpected(db, id, row.(createdAt := db.vms[id].createdAt));
    }
  }

  lemma DeletedVm(db: Db, id: string)
    ensures ExpectedLedger(Completed(db, DeleteVm(id), "")) == ExpectedLedger(db) - {id}
  {
    VmCrashThenRetry(db, id, "", 0);
  }

  lemma EndedSession(db: Db, session: string, order: seq<string>)
    ensures ExpectedLedger(Completed(db, DeleteSession(session, order), "")) == ExpectedLedger(db) - VmsOf(db, session)
  {
    SessionRemovalsSucceed(session);
    ApplyAllSplit(db, SessionRemovals(session), AllocationRemovals(order));
    AllRemovals(db, session);
    RemoveAllocations(RecordsDeleted(db, session), order);
    RemainingExpected(db, session, Completed(db, DeleteSession(session, order), ""));
  }

  lemma RemainingExpected(db: Db, session: string, after: Db)
    requires after.vms == VmsOutside(db.vms, session)
    ensures ExpectedLedger(after) == ExpectedLedger(db) - VmsOf(db, session)
  {
  }

  predicate LeavesVms(stmt: Stmt) {
    !stmt.InsertVm? && !stmt.SetVm? && !stmt.RemoveVm? && !stmt.RemoveVmsOf?
  }

  lemma OtherPlan(db: Db, call: Call, now: string)
    requires !OnVms(call) && Plan(db, call, now).Ok?
    ensures |Plan(db, call, now).value| <= 1
    ensures forall i :: 0 <= i < |Plan(db, call, now).value| ==> LeavesVms(Plan(db, call, now).value[i])
  {
  }

  lemma StmtLeavesVms(db: Db, stmt: Stmt)
    requires LeavesVms(stmt) && Apply(db, stmt).Ok?
    ensures Apply(db, stmt).value.vms == db.vms
  {
  }

  lemma OtherKeepsVms(db: Db, call: Call, now: string)
    requires !OnVms(call)
    ensures Completed(db, call, now).vms == db.vms
  {
    var plan := Plan(db, call, now);
    if plan.Ok? {
      OtherPlan(db, call, now);
      if plan.value != [] {
        assert plan.value == [plan.value[0]];
        ApplyOne(db, plan.value[0]);
        if Apply(db, plan.value[0]).Ok? {
          StmtLeavesVms(db, plan.value[0]);
        }
      }
    }
  }

  lemma SameVms(db: Db, after: Db)
    requires after.vms == db.vms
    ensures ExpectedLedger(after) == ExpectedLedger(db)
  {
  }

  lemma ReconciledExpected(db: Db, order: seq<string>)
    requires StoreSound(db) && Enumerates(order, ActiveVms(db).Keys)
    ensures Reconciled(db, order) == ExpectedLedger(db)
  {
    RespectedIdsAreOwn(db);
    RebuiltFromStore(db, order);
    NumericPayloadsAreClean(db);
    CleanMeaning(db);
    PartOfLedger(NumericPart(db), ExpectedLedger(db), NumericVms(db));
  }

  // ----- whole runs

  /** The ledger holds the expected entries, and at most one more, under the empty id. */
  ghost predicate Synced(m: Live) {
    StoreSound(m.db) && m.ledger - {""} == ExpectedLedger(m.db)
  }

  lemma AddedSynced(ledger: Ledger, id: string, need: Allocation)
    ensures ledger[id := need] - {""} == if id == "" then ledger - {""} else (ledger - {""})[id := need]
  {
  }

  lemma RecordDisciplined(op: Op)
    requires op.Start?
    ensures Disciplined(Recorded(op))
  {
    ManagerRecordNumeric(op.id, op.session, op.image, op.need.cpu, op.need.memory, op.need.disk);
  }

  lemma StartKeepsSynced(host: Host, m: Live, op: Op)
    requires Synced(m) && op.Start?
    ensures Synced(Operated(host, m, op))
  {
    if op.id !in m.ledger && Admissible(host, m.ledger, op.need) {
      RecordDisciplined(op);
      CallKeepsSound(m.db, Recorded(op), op.now);
      RecordedSynced(m, op);
    }
  }

  lemma RecordedSynced(m: Live, op: Op)
    requires op.Start? && m.ledger - {""} == ExpectedLedger(m.db)
    ensures (if Accepted(m.db, op.id, op.need) then m.ledger[op.id := op.need] else m.ledger) - {""}
      == ExpectedLedger(Completed(m.db, Recorded(op), op.now))
  {
    if Accepted(m.db, op.id, op.need) {
      RecordedExpected(m.db, op);
      AddedSynced(m.ledger, op.id, op.need);
    } else {
      RefusedRecord(m.db, op);
    }
  }

  lemma RemovedSynced(ledger: Ledger, gone: set<string>)
    ensures ledger - gone - {""} == ledger - {""} - gone
  {
  }

  lemma CrashKeepsSynced(host: Host, m: Live, op: Op)
    requires Synced(m) && op.Crash? && Proper(op)
    ensures Synced(Operated(host, m, op))
  {
    var after := Step(m.db, op.e);
    StepKeepsSound(m.db, op.e);
    if Enumerates(op.order, ActiveVms(after).Keys) {
      ReconciledExpected(after, op.order);
      assert ExpectedLedger(after) - {""} == ExpectedLedger(after);
    }
  }

  lemma OperationKeepsSynced(host: Host, m: Live, op: Op)
    requires Synced(m) && Proper(op)
    ensures Synced(Operated(host, m, op))
  {
    match op
    case Start(_, _, _, _, _) => StartKeepsSynced(host, m, op);
    case Stop(id) =>
      CallKeepsSound(m.db, DeleteVm(id), "");
      DeletedVm(m.db, id);
      RemovedSynced(m.ledger, {id});
    case Update(id, updates) =>
      CallKeepsSound(m.db, UpdateVm(id, updates), "");
      UpdatedExpected(m.db, id, updates);
    case End(session, vmOrder) =>
      CallKeepsSound(m.db, DeleteSession(session, vmOrder), "");
      EndedSession(m.db, session, vmOrder);
      RemovedSynced(m.ledger, VmsOf(m.db, session));
    case Other(call, now) =>
      CallKeepsSound(m.db, call, now);
      OtherKeepsVms(m.db, call, now);
      SameVms(m.db, Completed(m.db, call, now));
    case Crash(_, _) => CrashKeepsSynced(host, m, op);
  }

  ghost predicate ProperRun(ops: seq<Op>) {
    forall i :: 0 <= i < |ops| ==> Proper(ops[i])
  }

  lemma {:induction false} RunSynced(host: Host, ops: seq<Op>)
    requires ProperRun(ops)
    ensures Synced(OperatedAll(host, ops))
  {
    if ops != [] {
      RunSynced(host, ops[..|ops| - 1]);
      OperationKeepsSynced(host, OperatedAll(host, ops[..|ops| - 1]), ops[|ops| - 1]);
    }
  }

  /** At any moment of such a run, crashes and restarts included, rebuilding the ledger from the store gives the
      live ledger back, whatever the row order, less an entry under the empty id. */
  lemma RestartLosesNothing(host: Host, ops: seq<Op>, order: seq<string>)
    requires ProperRun(ops) && Enumerates(order, ActiveVms(OperatedAll(host, ops).db).Keys)
    ensures var m := OperatedAll(host, ops);
      Reconciled(m.db, order) == m.ledger - {""}
  {
    RunSynced(host, ops);
    ReconciledExpected(OperatedAll(host, ops).db, order);
  }
}
