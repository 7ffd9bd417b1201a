/** The two copies of a record agree: the columns queries filter on and the view readers decode. */
module Coherence {
  import opened Results
  import opened Values
  import opened Store
  import opened Timestamps

  // ----- a payload and its columns

  /** Where obj mentions key, it shows text. */
  predicate Agrees(obj: Object, key: string, text: string) {
    key in obj ==> PyStr(obj[key]) == text
  }

  /** Where obj mentions key, it is stored as n. */
  predicate AgreesInt(obj: Object, key: string, n: int) {
    key in obj ==> AsInt(obj[key]) == Ok(n)
  }

  // Columns that every INSERT and UPDATE of the row takes from the payload it stores beside them.

  predicate SessionWritten(r: SessionRow) {
    Agrees(r.data, "owner", r.owner) && Agrees(r.data, "status", r.status)
  }

  predicate VmWritten(r: VmRow) {
    && Agrees(r.data, "session_id", r.sessionId) && Agrees(r.data, "name", r.name)
    && Agrees(r.data, "status", r.status) && Agrees(r.data, "base_image", r.baseImage)
    && AgreesInt(r.data, "cpu_cores", r.cpu) && AgreesInt(r.data, "memory_mb", r.memory)
    && AgreesInt(r.data, "disk_gb", r.disk)
  }

  predicate ProxyWritten(r: ProxyRow) {
    AgreesInt(r.data, "port", r.port) && AgreesInt(r.data, "pid", r.pid) && Agrees(r.data, "status", r.status)
  }

  predicate FolderWritten(session: string, r: FolderRow) {
    Agrees(r.data, "session_id", session) && Agrees(r.data, "host_path", r.hostPath)
  }

  predicate AllocationWritten(vmId: string, r: AllocationRow) {
    && Agrees(r.data, "vm_id", vmId)
    && AgreesInt(r.data, "cpu_cores", r.cpu) && AgreesInt(r.data, "memory_mb", r.memory)
    && AgreesInt(r.data, "disk_gb", r.disk)
  }

  /** Retiring a rule writes the removed_at column only, so an empty column says more than a full one. */
  predicate RuleWritten(r: RuleRow) {
    && Agrees(r.data, "session_id", r.sessionId) && Agrees(r.data, "domain", r.domain)
    && Agrees(r.data, "action", r.action) && Agrees(r.data, "source", r.source)
    && Agrees(r.data, "created_at", r.createdAt)
    && (r.removedAt == None ==> Get(r.data, "removed_at", Null) == Null)
  }

  predicate AuditWritten(r: AuditRow) {
    && Agrees(r.data, "session_id", r.sessionId) && Agrees(r.data, "event_type", r.eventType)
    && Agrees(r.data, "timestamp", r.timestamp)
  }

  /** What agreement says about the view a reader gets. */
  lemma VmViewAgrees(id: string, r: VmRow)
    requires VmWritten(r)
    ensures var view := VmView(id, r);
      && PyStr(view["session_id"]) == r.sessionId && PyStr(view["name"]) == r.name
      && PyStr(view["status"]) == r.status && PyStr(view["base_image"]) == r.baseImage
      && AsInt(view["cpu_cores"]) == Ok(r.cpu) && AsInt(view["memory_mb"]) == Ok(r.memory)
      && AsInt(view["disk_gb"]) == Ok(r.disk)
  {
  }

  lemma SessionViewAgrees(id: string, r: SessionRow)
    requires SessionWritten(r)
    ensures PyStr(SessionView(id, r)["owner"]) == r.owner && PyStr(SessionView(id, r)["status"]) == r.status
  {
  }

  // ----- agreement over runs

  predicate SessionsWritten(db: Db) {
    forall id :: id in db.sessions ==> SessionWritten(db.sessions[id])
  }

  predicate VmsWritten(db: Db) {
    forall id :: id in db.vms ==> VmWritten(db.vms[id])
  }

  predicate ProxiesWritten(db: Db) {
    forall s :: s in db.proxies.rows ==> ProxyWritten(db.proxies.rows[s])
  }

  predicate FoldersWritten(db: Db) {
    forall s :: s in db.folders.rows ==> FolderWritten(s, db.folders.rows[s])
  }

  predicate AllocationsWritten(db: Db) {
    forall v :: v in db.allocations.rows ==> AllocationWritten(v, db.allocations.rows[v])
  }

  predicate RulesWritten(db: Db) {
    forall i :: i in db.rules.rows ==> RuleWritten(db.rules.rows[i])
  }

  predicate AuditsWritten(db: Db) {
    forall i :: 0 <= i < |db.audit| ==> AuditWritten(db.audit[i])
  }

  predicate Written(db: Db) {
    && SessionsWritten(db) && VmsWritten(db) && ProxiesWritten(db)
    && FoldersWritten(db) && AllocationsWritten(db) && RulesWritten(db) && AuditsWritten(db)
  }

  /** The statement stores no row whose columns and payload disagree. */
  predicate SoundStmt(stmt: Stmt) {
    match stmt
    case InsertSession(_, row) => SessionWritten(row)
    case SetSession(_, row) => SessionWritten(row)
    case InsertVm(_, row) => VmWritten(row)
    case SetVm(_, row) => VmWritten(row)
    case InsertProxy(_, row) => ProxyWritten(row)
    case SetProxy(_, row) => ProxyWritten(row)
    case InsertFolder(session, row) => FolderWritten(session, row)
    case InsertAllocation(vmId, row) => AllocationWritten(vmId, row)
    case InsertRule(row) => RuleWritten(row)
    case InsertAudit(row) => AuditWritten(row)
    case _ => true
  }

  predicate SoundStmts(stmts: seq<Stmt>) {
    forall i :: 0 <= i < |stmts| ==> SoundStmt(stmts[i])
  }

  lemma {:induction false} AllocationRemovalsSound(vms: seq<string>)
    ensures SoundStmts(AllocationRemovals(vms))
  {
    if vms != [] {
      AllocationRemovalsSound(vms[..|vms| - 1]);
    }
  }

  lemma SessionRowSound(obj: Object, status: string, createdAt: string, now: string)
    ensures SessionWritten(SessionRowFrom(obj, status, createdAt, now))
  {
  }

  lemma VmRowSound(obj: Object, status: string, createdAt: string)
    requires VmRowFrom(obj, status, createdAt).Ok?
    ensures VmWritten(VmRowFrom(obj, status, createdAt).value)
  {
  }

  lemma ProxyRowSound(obj: Object, status: string)
    requires ProxyRowFrom(obj, status).Ok?
    ensures ProxyWritten(ProxyRowFrom(obj, status).value)
  {
  }

  lemma AllocationRowSound(obj: Object)
    requires AllocationRowFrom(obj).Ok?
    ensures AllocationWritten(TextColumn(obj, "vm_id", ""), AllocationRowFrom(obj).value)
  {
  }

  lemma RuleRowSound(obj: Object, now: string)
    requires RuleRowFrom(obj, now).Ok?
    ensures RuleWritten(RuleRowFrom(obj, now).value)
  {
  }

  lemma SessionPlanSound(db: Db, call: Call, now: string)
    requires (call.CreateSession? || call.UpdateSession? || call.DeleteSession?) && Plan(db, call, now).Ok?
    ensures SoundStmts(Plan(db, call, now).value)
  {
    if call.CreateSession? {
      SessionRowSound(call.obj, "creating", now, now);
    } else if call.DeleteSession? {
      AllocationRemovalsSound(call.vmOrder);
    } else if call.id in db.sessions {
      SessionRowSound(SessionView(call.id, db.sessions[call.id]) + call.updates, "", "", now);
    }
  }

  lemma VmPlanSound(db: Db, call: Call, now: string)
    requires (call.CreateVm? || call.UpdateVm?) && Plan(db, call, now).Ok?
    ensures SoundStmts(Plan(db, call, now).value)
  {
    if call.CreateVm? {
      VmRowSound(call.obj, "creating", now);
    } else if call.id in db.vms {
      VmRowSound(VmView(call.id, db.vms[call.id]) + call.updates, "", "");
    }
  }

  lemma ProxyPlanSound(db: Db, call: Call, now: string)
    requires (call.CreateProxy? || call.UpdateProxy?) && Plan(db, call, now).Ok?
    ensures SoundStmts(Plan(db, call, now).value)
  {
    if call.CreateProxy? {
      ProxyRowSound(call.obj, "running");
    } else if call.session in db.proxies.rows {
      ProxyRowSound(ProxyView(call.session, db.proxies.rows[call.session]) + call.updates, "");
    }
  }

  lemma OtherInsertSound(db: Db, call: Call, now: string)
    requires call.CreateSharedFolder? || call.CreateResourceAllocation? || call.CreateNetworkRule? || call.InsertAuditEvent?
    requires Plan(db, call, now).Ok?
    ensures SoundStmts(Plan(db, call, now).value)
  {
    if call.CreateResourceAllocation? {
      AllocationRowSound(call.obj);
    } else if call.CreateNetworkRule? {
      RuleRowSound(call.obj, now);
    }
  }

  lemma PlanSound(db: Db, call: Call, now: string)
    requires Plan(db, call, now).Ok?
    ensures SoundStmts(Plan(db, call, now).value)
  {
    if call.CreateSession? || call.UpdateSession? || call.DeleteSession? {
      SessionPlanSound(db, call, now);
    } else if call.CreateVm? || call.UpdateVm? {
      VmPlanSound(db, call, now);
    } else if call.CreateProxy? || call.UpdateProxy? {
      ProxyPlanSound(db, call, now);
    } else if
      call.CreateSharedFolder? || call.CreateResourceAllocation? || call.CreateNetworkRule? || call.InsertAuditEvent?
    {
      OtherInsertSound(db, call, now);
    }
  }

  lemma SessionsAndVmsKeep(db: Db, stmt: Stmt)
    requires Written(db) && SoundStmt(stmt) && Apply(db, stmt).Ok?
    ensures SessionsWritten(Apply(db, stmt).value) && VmsWritten(Apply(db, stmt).value)
  {
  }

  lemma ProxiesAndFoldersKeep(db: Db, stmt: Stmt)
    requires Written(db) && SoundStmt(stmt) && Apply(db, stmt).Ok?
    ensures ProxiesWritten(Apply(db, stmt).value) && FoldersWritten(Apply(db, stmt).value)
  {
  }

  lemma AllocationsAndAuditsKeep(db: Db, stmt: Stmt)
    requires Written(db) && SoundStmt(stmt) && Apply(db, stmt).Ok?
    ensures AllocationsWritten(Apply(db, stmt).value) && AuditsWritten(Apply(db, stmt).value)
  {
  }

  lemma RulesKeep(db: Db, stmt: Stmt)
    requires Written(db) && SoundStmt(stmt) && Apply(db, stmt).Ok?
    ensures RulesWritten(Apply(db, stmt).value)
  {
  }

  lemma {:induction false} SoundStmtsKeep(db: Db, stmts: seq<Stmt>)
    requires Written(db) && SoundStmts(stmts)
    ensures Written(ApplyAll(db, stmts))
    decreases |stmts|
  {
    if stmts != [] && Apply(db, stmts[0]).Ok? {
      SessionsAndVmsKeep(db, stmts[0]);
      ProxiesAndFoldersKeep(db, stmts[0]);
      AllocationsAndAuditsKeep(db, stmts[0]);
      RulesKeep(db, stmts[0]);
      SoundStmtsKeep(Apply(db, stmts[0]).value, stmts[1..]);
    }
  }

  lemma StepKeepsWritten(db: Db, e: Event)
    requires Written(db)
    ensures Written(Step(db, e))
  {
    var plan := Plan(db, e.call, e.now);
    if plan.Ok? {
      PlanSound(db, e.call, e.now);
      SoundStmtsKeep(db, Take(plan.value, e.commits));
    }
  }

  /** Whatever the callers do, and wherever calls are cut short, the written columns agree with the payloads. */
  lemma {:induction false} RunWritten(events: seq<Event>)
    ensures Written(Run(events))
  {
    if events != [] {
      RunWritten(events[..|events| - 1]);
      StepKeepsWritten(Run(events[..|events| - 1]), events[|events| - 1]);
    }
  }

  // ----- columns that an UPDATE leaves alone

  // No UPDATE writes id, created_at or a proxy's session_id, but the payload it stores may mention them.

  datatype Aspect = SessionId | SessionCreated | VmId | VmCreated | ProxySession

  /** In every row, the column agrees with the payload. */
  predicate Holds(db: Db, a: Aspect) {
    match a
    case SessionId => forall id :: id in db.sessions ==> Agrees(db.sessions[id].data, "id", id)
    case SessionCreated =>
      forall id :: id in db.sessions ==> Agrees(db.sessions[id].data, "created_at", db.sessions[id].createdAt)
    case VmId => forall id :: id in db.vms ==> Agrees(db.vms[id].data, "id", id)
    case VmCreated => forall id :: id in db.vms ==> Agrees(db.vms[id].data, "created_at", db.vms[id].createdAt)
    case ProxySession => forall s :: s in db.proxies.rows ==> Agrees(db.proxies.rows[s].data, "session_id", s)
  }

  /** An update of row id leaves the aspect's key as it is. */
  predicate RespectsSession(r: SessionRow, id: string, updates: Object, a: Aspect) {
    (a.SessionId? ==> Agrees(updates, "id", id)) && (a.SessionCreated? ==> Agrees(updates, "created_at", r.createdAt))
  }

  predicate RespectsVm(r: VmRow, id: string, updates: Object, a: Aspect) {
    (a.VmId? ==> Agrees(updates, "id", id)) && (a.VmCreated? ==> Agrees(updates, "created_at", r.createdAt))
  }

  predicate RespectsProxy(session: string, updates: Object, a: Aspect) {
    a.ProxySession? ==> Agrees(updates, "session_id", session)
  }

  /** If the event is an update that is carried out, it leaves the aspect's key as it is. */
  predicate Respects(db: Db, e: Event, a: Aspect) {
    Plan(db, e.call, e.now).Ok? && e.commits > 0 ==>
      match e.call
      case UpdateSession(id, updates) => id in db.sessions ==> RespectsSession(db.sessions[id], id, updates, a)
      case UpdateVm(id, updates) => id in db.vms ==> RespectsVm(db.vms[id], id, updates, a)
      case UpdateProxy(session, updates) => session in db.proxies.rows ==> RespectsProxy(session, updates, a)
      case _ => true
  }

  lemma SessionStored(db: Db, id: string, r: SessionRow, a: Aspect)
    requires Holds(db, a)
    ensures Holds(db.(sessions := db.sessions[id := r]), a) <==>
      && (a.SessionId? ==> Agrees(r.data, "id", id))
      && (a.SessionCreated? ==> Agrees(r.data, "created_at", r.createdAt))
  {
    var after := db.(sessions := db.sessions[id := r]);
    assert after.sessions[id] == r;
  }

  lemma VmStored(db: Db, id: string, r: VmRow, a: Aspect)
    requires Holds(db, a)
    ensures Holds(db.(vms := db.vms[id := r]), a) <==>
      && (a.VmId? ==> Agrees(r.data, "id", id))
      && (a.VmCreated? ==> Agrees(r.data, "created_at", r.createdAt))
  {
    var after := db.(vms := db.vms[id := r]);
    assert after.vms[id] == r;
  }

  lemma ProxyStored(db: Db, session: string, r: ProxyRow, next: int, a: Aspect)
    requires Holds(db, a)
    ensures Holds(db.(proxies := Table(db.proxies.rows[session := r], next)), a) <==>
      (a.ProxySession? ==> Agrees(r.data, "session_id", session))
  {
    var after := db.(proxies := Table(db.proxies.rows[session := r], next));
    assert after.proxies.rows[session] == r;
  }

  /** In a merged record a key reads as before exactly when the updates leave it so. */
  lemma MergedAgrees(view: Object, updates: Object, key: string, text: string)
    requires key in view && PyStr(view[key]) == text
    ensures Agrees(view + updates, key, text) <==> Agrees(updates, key, text)
  {
  }

  lemma OneStatement(db: Db, e: Event, stmt: Stmt)
    requires Plan(db, e.call, e.now) == Ok([stmt]) && e.commits > 0
    ensures Step(db, e) == if Apply(db, stmt).Ok? then Apply(db, stmt).value else db
  {
    assert Take([stmt], e.commits) == [stmt];
    ApplyOne(db, stmt);
  }

  lemma SessionCreate(db: Db, e: Event, a: Aspect)
    requires Holds(db, a) && e.commits > 0 && e.call.CreateSession? && "id" in e.call.obj
    ensures Holds(Step(db, e), a)
  {
    var obj := e.call.obj;
    var id, r := PyStr(obj["id"]), SessionRowFrom(obj, "creating", e.now, e.now);
    OneStatement(db, e, InsertSession(id, r));
    SessionStored(db, id, r, a);
  }

  lemma SessionSet(db: Db, e: Event, id: string, before: SessionRow, merged: Object, a: Aspect)
    requires Holds(db, a) && e.commits > 0 && id in db.sessions && db.sessions[id] == before
    requires Plan(db, e.call, e.now) == Ok([SetSession(id, SessionRowFrom(merged, "", "", e.now))])
    ensures Holds(Step(db, e), a) <==>
      && (a.SessionId? ==> Agrees(merged, "id", id))
      && (a.SessionCreated? ==> Agrees(merged, "created_at", before.createdAt))
  {
    var row := SessionRowFrom(merged, "", "", e.now);
    assert row.data == merged;
    OneStatement(db, e, SetSession(id, row));
    SessionStored(db, id, row.(createdAt := before.createdAt), a);
  }

  lemma SessionUpdate(db: Db, e: Event, a: Aspect)
    requires Holds(db, a) && e.commits > 0 && e.call.UpdateSession? && e.call.id in db.sessions
    ensures Holds(Step(db, e), a) <==> Respects(db, e, a)
  {
    var id, before := e.call.id, db.sessions[e.call.id];
    var merged := SessionView(id, before) + e.call.updates;
    SessionSet(db, e, id, before, merged, a);
    if a.SessionId? {
      MergedAgrees(SessionView(id, before), e.call.updates, "id", id);
    } else if a.SessionCreated? {
      MergedAgrees(SessionView(id, before), e.call.updates, "created_at", before.createdAt);
    }
  }

  lemma VmCreate(db: Db, e: Event, a: Aspect)
    requires Holds(db, a) && e.commits > 0 && e.call.CreateVm? && Plan(db, e.call, e.now).Ok?
    ensures Holds(Step(db, e), a)
  {
    var obj := e.call.obj;
    var id, r := PyStr(obj["id"]), VmRowFrom(obj, "creating", e.now).value;
    OneStatement(db, e, InsertVm(id, r));
    VmStored(db, id, r, a);
  }

  lemma VmSet(db: Db, e: Event, id: string, before: VmRow, merged: Object, a: Aspect)
    requires Holds(db, a) && e.commits > 0 && id in db.vms && db.vms[id] == before
    requires VmRowFrom(merged, "", "").Ok?
    requires Plan(db, e.call, e.now) == Ok([SetVm(id, VmRowFrom(merged, "", "").value)])
    ensures Holds(Step(db, e), a) <==>
      && (a.VmId? ==> Agrees(merged, "id", id))
      && (a.VmCreated? ==> Agrees(merged, "created_at", before.createdAt))
  {
    var row := VmRowFrom(merged, "", "").value;
    assert row.data == merged;
    OneStatement(db, e, SetVm(id, row));
    VmStored(db, id, row.(createdAt := before.createdAt), a);
  }

  lemma VmUpdate(db: Db, e: Event, a: Aspect)
    requires Holds(db, a) && e.commits > 0 && e.call.UpdateVm? && e.call.id in db.vms
    requires Plan(db, e.call, e.now).Ok?
    ensures Holds(Step(db, e), a) <==> Respects(db, e, a)
  {
    var id, before := e.call.id, db.vms[e.call.id];
    var merged := VmView(id, before) + e.call.updates;
    VmSet(db, e, id, before, merged, a);
    if a.VmId? {
      MergedAgrees(VmView(id, before), e.call.updates, "id", id);
    } else if a.VmCreated? {
      MergedAgrees(VmView(id, before), e.call.updates, "created_at", before.createdAt);
    }
  }

  lemma ProxyCreate(db: Db, e: Event, a: Aspect)
    requires Holds(db, a) && e.commits > 0 && e.call.CreateProxy? && Plan(db, e.call, e.now).Ok?
    ensures Holds(Step(db, e), a)
  {
    var obj := e.call.obj;
    var session, r := TextColumn(obj, "session_id", ""), ProxyRowFrom(obj, "running").value;
    OneStatement(db, e, InsertProxy(session, r));
    ProxyStored(db, session, r.(id := db.proxies.next), db.proxies.next + 1, a);
  }

  lemma ProxySet(db: Db, e: Event, session: string, merged: Object, a: Aspect)
    requires Holds(db, a) && e.commits > 0 && session in db.proxies.rows
    requires ProxyRowFrom(merged, "").Ok?
    requires Plan(db, e.call, e.now) == Ok([SetProxy(session, ProxyRowFrom(merged, "").value)])
    ensures Holds(Step(db, e), a) <==> (a.ProxySession? ==> Agrees(merged, "session_id", session))
  {
    var row := ProxyRowFrom(merged, "").value;
    assert row.data == merged;
    OneStatement(db, e, SetProxy(session, row));
    ProxyStored(db, session, row.(id := db.proxies.rows[session].id), db.proxies.next, a);
  }

  lemma ProxyUpdate(db: Db, e: Event, a: Aspect)
    requires Holds(db, a) && e.commits > 0 && e.call.UpdateProxy? && e.call.session in db.proxies.rows
    requires Plan(db, e.call, e.now).Ok?
    ensures Holds(Step(db, e), a) <==> Respects(db, e, a)
  {
    var session, before := e.call.session, db.proxies.rows[e.call.session];
    var merged := ProxyView(session, before) + e.call.updates;
    ProxySet(db, e, session, merged, a);
    if a.ProxySession? {
      MergedAgrees(ProxyView(session, before), e.call.updates, "session_id", session);
    }
  }

  // What a caller writes is what readers see next.

  lemma CompletedOne(db: Db, call: Call, now: string, stmt: Stmt)
    requires Plan(db, call, now) == Ok([stmt])
    ensures Completed(db, call, now) == if Apply(db, stmt).Ok? then Apply(db, stmt).value else db
  {
    ApplyOne(db, stmt);
  }

  /** Updating what is not there changes nothing, and neither does a call that raises. */
  lemma NothingDone(db: Db, call: Call, now: string)
    ensures call.UpdateSession? && call.id !in db.sessions ==> Completed(db, call, now) == db
    ensures call.UpdateVm? && call.id !in db.vms ==> Completed(db, call, now) == db
    ensures call.UpdateProxy? && call.session !in db.proxies.rows ==> Completed(db, call, now) == db
    ensures Plan(db, call, now).Err? ==> Completed(db, call, now) == db
    ensures
      var plan := Plan(db, call, now);
      plan.Ok? && |plan.value| == 1 && Apply(db, plan.value[0]).Err? ==> Completed(db, call, now) == db
  {
    var plan := Plan(db, call, now);
    if plan.Ok? && |plan.value| == 1 {
      assert plan.value == [plan.value[0]];
      ApplyOne(db, plan.value[0]);
    }
  }

  /** After an update the session's view is the old one overlaid with the updates; nothing else changes. */
  lemma UpdatedSessionView(db: Db, id: string, updates: Object, now: string)
    requires id in db.sessions
    ensures var after := Completed(db, UpdateSession(id, updates), now);
      && id in after.sessions && after == db.(sessions := db.sessions[id := after.sessions[id]])
      && SessionView(id, after.sessions[id]) == SessionView(id, db.sessions[id]) + updates
  {
    var merged := SessionView(id, db.sessions[id]) + updates;
    var row := SessionRowFrom(merged, "", "", now);
    CompletedOne(db, UpdateSession(id, updates), now, SetSession(id, row));
    assert row.data == merged;
  }

  /** A payload that mentions every column is the whole view. */
  lemma MergedVmView(id: string, before: VmRow, updates: Object, r: VmRow)
    requires r.data == VmView(id, before) + updates
    ensures VmView(id, r) == r.data
  {
    assert VmColumns(id, r).Keys == VmColumns(id, before).Keys;
  }

  lemma StoredVm(db: Db, id: string, updates: Object, row: VmRow)
    requires id in db.vms && VmRowFrom(VmView(id, db.vms[id]) + updates, "", "") == Ok(row)
    ensures Completed(db, UpdateVm(id, updates), "")
      == db.(vms := db.vms[id := row.(createdAt := db.vms[id].createdAt)])
  {
    CompletedOne(db, UpdateVm(id, updates), "", SetVm(id, row));
  }

  lemma VmRowKeeps(obj: Object, status: string, createdAt: string)
    requires VmRowFrom(obj, status, createdAt).Ok?
    ensures VmRowFrom(obj, status, createdAt).value.data == obj
  {
  }

  /** The same for VMs, if the update is accepted. */
  lemma UpdatedVmView(db: Db, id: string, updates: Object)
    requires id in db.vms && VmRowFrom(VmView(id, db.vms[id]) + updates, "", "").Ok?
    ensures var after := Completed(db, UpdateVm(id, updates), "");
      && id in after.vms && after == db.(vms := db.vms[id := after.vms[id]])
      && VmView(id, after.vms[id]) == VmView(id, db.vms[id]) + updates
  {
    var merged := VmView(id, db.vms[id]) + updates;
    var row := VmRowFrom(merged, "", "").value;
    StoredVm(db, id, updates, row);
    VmRowKeeps(merged, "", "");
    MergedVmView(id, db.vms[id], updates, row.(createdAt := db.vms[id].createdAt));
  }

  /** And for proxies. */
  lemma UpdatedProxyView(db: Db, session: string, updates: Object)
    requires session in db.proxies.rows
    requires ProxyRowFrom(ProxyView(session, db.proxies.rows[session]) + updates, "").Ok?
    ensures var after := Completed(db, UpdateProxy(session, updates), "");
      && session in after.proxies.rows
      && after == db.(proxies := db.proxies.(rows := db.proxies.rows[session := after.proxies.rows[session]]))
      && ProxyView(session, after.proxies.rows[session]) == ProxyView(session, db.proxies.rows[session]) + updates
  {
    var merged := ProxyView(session, db.proxies.rows[session]) + updates;
    var row := ProxyRowFrom(merged, "").value;
    CompletedOne(db, UpdateProxy(session, updates), "", SetProxy(session, row));
    assert row.data == merged;
  }

  /** Statements that only remove rows, or touch other tables. */
  predicate Harmless(stmt: Stmt) {
    !stmt.InsertSession? && !stmt.SetSession? && !stmt.InsertVm? && !stmt.SetVm?
    && !stmt.InsertProxy? && !stmt.SetProxy?
  }

  predicate AllHarmless(stmts: seq<Stmt>) {
    forall i :: 0 <= i < |stmts| ==> Harmless(stmts[i])
  }

  lemma HarmlessKeeps(db: Db, stmt: Stmt, a: Aspect)
    requires Holds(db, a) && Harmless(stmt) && Apply(db, stmt).Ok?
    ensures Holds(Apply(db, stmt).value, a)
  {
  }

  lemma {:induction false} AllHarmlessKeep(db: Db, stmts: seq<Stmt>, a: Aspect)
    requires Holds(db, a) && AllHarmless(stmts)
    ensures Holds(ApplyAll(db, stmts), a)
    decreases |stmts|
  {
    if stmts != [] && Apply(db, stmts[0]).Ok? {
      HarmlessKeeps(db, stmts[0], a);
      AllHarmlessKeep(Apply(db, stmts[0]).value, stmts[1..], a);
    }
  }

  lemma {:induction false} AllocationRemovalsHarmless(vms: seq<string>)
    ensures AllHarmless(AllocationRemovals(vms))
  {
    if vms != [] {
      AllocationRemovalsHarmless(vms[..|vms| - 1]);
    }
  }

  predicate WritesViews(call: Call) {
    call.CreateSession? || call.UpdateSession? || call.CreateVm? || call.UpdateVm? || call.CreateProxy? || call.UpdateProxy?
  }

  lemma OtherPlansHarmless(db: Db, call: Call, now: string)
    requires !WritesViews(call) && Plan(db, call, now).Ok?
    ensures AllHarmless(Plan(db, call, now).value)
  {
    if call.DeleteSession? {
      AllocationRemovalsHarmless(call.vmOrder);
    }
  }

  lemma OtherStepKeeps(db: Db, e: Event, a: Aspect)
    requires Holds(db, a) && !WritesViews(e.call)
    ensures Holds(Step(db, e), a)
  {
    var plan := Plan(db, e.call, e.now);
    if plan.Ok? {
      OtherPlansHarmless(db, e.call, e.now);
      AllHarmlessKeep(db, Take(plan.value, e.commits), a);
    }
  }

  /** The plan has nothing to do, or nothing of it is done. */
  predicate Idle(db: Db, e: Event) {
    Plan(db, e.call, e.now).Err? || e.commits == 0 || Plan(db, e.call, e.now).value == []
  }

  lemma IdleStep(db: Db, e: Event)
    requires Idle(db, e)
    ensures Step(db, e) == db
  {
  }

  lemma WriteDecides(db: Db, e: Event, a: Aspect)
    requires Holds(db, a) && WritesViews(e.call) && !Idle(db, e)
    ensures Holds(Step(db, e), a) <==> Respects(db, e, a)
  {
    match e.call
    case CreateSession(_) => SessionCreate(db, e, a);
    case UpdateSession(_, _) => SessionUpdate(db, e, a);
    case CreateVm(_) => VmCreate(db, e, a);
    case UpdateVm(_, _) => VmUpdate(db, e, a);
    case CreateProxy(_) => ProxyCreate(db, e, a);
    case UpdateProxy(_, _) => ProxyUpdate(db, e, a);
  }

  /** One event keeps an aspect exactly when it respects it. */
  lemma StepDecides(db: Db, e: Event, a: Aspect)
    requires Holds(db, a)
    ensures Holds(Step(db, e), a) <==> Respects(db, e, a)
  {
    if Idle(db, e) {
      IdleStep(db, e);
    } else if WritesViews(e.call) {
      WriteDecides(db, e, a);
    } else {
      OtherStepKeeps(db, e, a);
    }
  }

  /** No update along the way rewrote the aspect's key. */
  predicate RespectsRun(events: seq<Event>, a: Aspect) {
    events != [] ==>
      var before := events[..|events| - 1];
      RespectsRun(before, a) && Respects(Run(before), events[|events| - 1], a)
  }

  /** The aspect holds at every moment of the run. */
  predicate HoldsThroughout(events: seq<Event>, a: Aspect) {
    Holds(Run(events), a) && (events != [] ==> HoldsThroughout(events[..|events| - 1], a))
  }

  /** An aspect holds all along a run exactly when no update rewrote its key. */
  lemma {:induction false} RunKeepsAspect(events: seq<Event>, a: Aspect)
    ensures HoldsThroughout(events, a) <==> RespectsRun(events, a)
  {
    if events != [] {
      var before := events[..|events| - 1];
      RunKeepsAspect(before, a);
      if Holds(Run(before), a) {
        StepDecides(Run(before), events[|events| - 1], a);
      }
    }
  }

  lemma RespectedAspectHolds(events: seq<Event>, a: Aspect)
    requires RespectsRun(events, a)
    ensures Holds(Run(events), a)
  {
    RunKeepsAspect(events, a);
  }

  // ----- coherence: every column a query filters on

  predicate SessionCoherent(id: string, r: SessionRow) {
    SessionWritten(r) && Agrees(r.data, "id", id) && Agrees(r.data, "created_at", r.createdAt)
  }

  predicate VmCoherent(id: string, r: VmRow) {
    VmWritten(r) && Agrees(r.data, "id", id) && Agrees(r.data, "created_at", r.createdAt)
  }

  predicate ProxyCoherent(session: string, r: ProxyRow) {
    ProxyWritten(r) && Agrees(r.data, "session_id", session)
  }

  predicate Coherent(db: Db) {
    && (forall id :: id in db.sessions ==> SessionCoherent(id, db.sessions[id]))
    && (forall id :: id in db.vms ==> VmCoherent(id, db.vms[id]))
    && (forall s :: s in db.proxies.rows ==> ProxyCoherent(s, db.proxies.rows[s]))
  }

  /** An accepted update keeps a VM row coherent exactly when it respects id and created_at. */
  lemma UpdatedVmCoherent(id: string, r: VmRow, updates: Object)
    requires VmCoherent(id, r)
    requires VmRowFrom(VmView(id, r) + updates, "", "").Ok?
    ensures var after := VmRowFrom(VmView(id, r) + updates, "", "").value.(createdAt := r.createdAt);
      VmCoherent(id, after) <==> Agrees(updates, "id", id) && Agrees(updates, "created_at", r.createdAt)
  {
    var merged := VmView(id, r) + updates;
    VmRowSound(merged, "", "");
    assert VmRowFrom(merged, "", "").value.data == merged;
    MergedAgrees(VmView(id, r), updates, "id", id);
    MergedAgrees(VmView(id, r), updates, "created_at", r.createdAt);
  }

  /** The same for sessions. */
  lemma UpdatedSessionCoherent(id: string, r: SessionRow, updates: Object, now: string)
    requires SessionCoherent(id, r)
    ensures var after := SessionRowFrom(SessionView(id, r) + updates, "", "", now).(createdAt := r.createdAt);
      SessionCoherent(id, after) <==> Agrees(updates, "id", id) && Agrees(updates, "created_at", r.createdAt)
  {
    var merged := SessionView(id, r) + updates;
    SessionRowSound(merged, "", "", now);
    assert SessionRowFrom(merged, "", "", now).data == merged;
  }

  /** The same for proxies, whose key column is session_id. */
  lemma UpdatedProxyCoherent(session: string, r: ProxyRow, updates: Object)
    requires ProxyCoherent(session, r)
    requires ProxyRowFrom(ProxyView(session, r) + updates, "").Ok?
    ensures var after := ProxyRowFrom(ProxyView(session, r) + updates, "").value.(id := r.id);
      ProxyCoherent(session, after) <==> Agrees(updates, "session_id", session)
  {
    var merged := ProxyView(session, r) + updates;
    ProxyRowSound(merged, "");
    assert ProxyRowFrom(merged, "").value.data == merged;
  }

  predicate CoherentThroughout(events: seq<Event>) {
    Coherent(Run(events)) && (events != [] ==> CoherentThroughout(events[..|events| - 1]))
  }

  /** No update along the way rewrote a key that no UPDATE writes. */
  predicate RespectfulRun(events: seq<Event>) {
    && RespectsRun(events, SessionId) && RespectsRun(events, SessionCreated)
    && RespectsRun(events, VmId) && RespectsRun(events, VmCreated)
    && RespectsRun(events, ProxySession)
  }

  lemma CoherentMeaning(events: seq<Event>)
    ensures Coherent(Run(events)) <==>
      && Holds(Run(events), SessionId) && Holds(Run(events), SessionCreated)
      && Holds(Run(events), VmId) && Holds(Run(events), VmCreated)
      && Holds(Run(events), ProxySession)
  {
    RunWritten(events);
  }

  lemma {:induction false} CoherentPrefixes(events: seq<Event>)
    ensures CoherentThroughout(events) <==>
      && HoldsThroughout(events, SessionId) && HoldsThroughout(events, SessionCreated)
      && HoldsThroughout(events, VmId) && HoldsThroughout(events, VmCreated)
      && HoldsThroughout(events, ProxySession)
  {
    CoherentMeaning(events);
    if events != [] {
      CoherentPrefixes(events[..|events| - 1]);
    }
  }

  /** Every store along a run is coherent exactly when no update rewrote a key that no UPDATE writes. */
  lemma RunCoherent(events: seq<Event>)
    ensures CoherentThroughout(events) <==> RespectfulRun(events)
  {
    CoherentPrefixes(events);
    RunKeepsAspect(events, SessionId);
    RunKeepsAspect(events, SessionCreated);
    RunKeepsAspect(events, VmId);
    RunKeepsAspect(events, VmCreated);
    RunKeepsAspect(events, ProxySession);
  }

  // ----- filtering columns is filtering views

  predicate Matches(view: Object, key: string, wanted: Option<string>) {
    wanted.Some? ==> PyStr(Get(view, key, Null)) == wanted.value
  }

  function SessionsByView(db: Db, owner: Option<string>, status: Option<string>): map<string, Object> {
    map id | id in db.sessions
      && Matches(SessionView(id, db.sessions[id]), "owner", owner)
      && Matches(SessionView(id, db.sessions[id]), "status", status)
      :: SessionView(id, db.sessions[id])
  }

  function VmsByView(db: Db, key: string, wanted: Option<string>): map<string, Object> {
    map id | id in db.vms && Matches(VmView(id, db.vms[id]), key, wanted) :: VmView(id, db.vms[id])
  }

  lemma SessionQueries(db: Db, owner: Option<string>, status: Option<string>)
    requires SessionsWritten(db)
    ensures ListSessions(db, owner, status) == SessionsByView(db, owner, status)
  {
    forall id | id in db.sessions
      ensures Matches(SessionView(id, db.sessions[id]), "owner", owner)
        <==> (owner.Some? ==> db.sessions[id].owner == owner.value)
      ensures Matches(SessionView(id, db.sessions[id]), "status", status)
        <==> (status.Some? ==> db.sessions[id].status == status.value)
    {
      SessionViewAgrees(id, db.sessions[id]);
    }
  }

  lemma VmQueries(db: Db, status: Option<string>, image: string)
    requires VmsWritten(db)
    ensures ListVms(db, status) == VmsByView(db, "status", status)
    ensures VmsByImage(db, image) == VmsByView(db, "base_image", Some(image))
  {
    forall id | id in db.vms
      ensures Matches(VmView(id, db.vms[id]), "status", status)
        <==> (status.Some? ==> db.vms[id].status == status.value)
      ensures Matches(VmView(id, db.vms[id]), "base_image", Some(image)) <==> db.vms[id].baseImage == image
    {
      VmViewAgrees(id, db.vms[id]);
    }
  }

  /** The VMs whose decoded view says running or creating. */
  function ActiveByView(db: Db): map<string, Object> {
    map id | id in db.vms && PyStr(Get(VmView(id, db.vms[id]), "status", Null)) in {"running", "creating"}
      :: VmView(id, db.vms[id])
  }

  lemma ActiveQuery(db: Db)
    requires VmsWritten(db)
    ensures ActiveVms(db) == ActiveByView(db)
  {
    forall id | id in db.vms
      ensures PyStr(Get(VmView(id, db.vms[id]), "status", Null)) == db.vms[id].status
    {
      VmViewAgrees(id, db.vms[id]);
    }
  }

  /** In every reachable store a filtered query returns exactly the rows whose decoded view passes the filter. */
  lemma QueriesFilterViews(events: seq<Event>, owner: Option<string>, status: Option<string>, image: string)
    ensures ListSessions(Run(events), owner, status) == SessionsByView(Run(events), owner, status)
    ensures ListVms(Run(events), status) == VmsByView(Run(events), "status", status)
    ensures VmsByImage(Run(events), image) == VmsByView(Run(events), "base_image", Some(image))
    ensures ActiveVms(Run(events)) == ActiveByView(Run(events))
  {
    RunWritten(events);
    ActiveQuery(Run(events));
    SessionQueries(Run(events), owner, status);
    VmQueries(Run(events), status, image);
  }

  /** The sessions whose decoded view shows the status and a creation no later than the threshold. */
  function SessionsByAgeView(db: Db, status: string, threshold: string): map<string, Object> {
    map id | id in db.sessions
      && Matches(SessionView(id, db.sessions[id]), "status", Some(status))
      && TextAtMost(PyStr(Get(SessionView(id, db.sessions[id]), "created_at", Null)), threshold)
      :: SessionView(id, db.sessions[id])
  }

  lemma AgeByView(db: Db, status: string, threshold: string)
    requires SessionsWritten(db) && Holds(db, SessionCreated)
    ensures SessionsByStatusAndAge(db, status, threshold) == SessionsByAgeView(db, status, threshold)
  {
    forall id | id in db.sessions
      ensures Matches(SessionView(id, db.sessions[id]), "status", Some(status)) <==> db.sessions[id].status == status
      ensures PyStr(Get(SessionView(id, db.sessions[id]), "created_at", Null)) == db.sessions[id].createdAt
    {
      SessionViewAgrees(id, db.sessions[id]);
    }
  }

  /** In every run that kept created_at, the age query returns exactly these sessions, each with its view. */
  lemma AgeQueryFiltersViews(events: seq<Event>, status: string, threshold: string)
    requires RespectsRun(events, SessionCreated)
    ensures SessionsByStatusAndAge(Run(events), status, threshold) == SessionsByAgeView(Run(events), status, threshold)
  {
    RunWritten(events);
    RespectedAspectHolds(events, SessionCreated);
    AgeByView(Run(events), status, threshold);
  }

  /** The age query returns exactly the sessions of that status created at least olderThan ago. */
  lemma AgeQueryMeaning(
    events: seq<Event>, status: string, olderThan: string, now: Instant, threshold: Instant, id: string, created: Instant)
    requires RespectsRun(events, SessionCreated) && IsInstant(threshold) && IsInstant(created)
    requires ParseMinutes(olderThan).Ok?
    requires Micros(threshold) == Micros(now) - 60000000 * ParseMinutes(olderThan).value
    requires id in Run(events).sessions
    requires PyStr(SessionView(id, Run(events).sessions[id])["created_at"]) == Rendered(created)
    ensures id in SessionsByStatusAndAge(Run(events), status, Rendered(threshold)) <==>
      && PyStr(SessionView(id, Run(events).sessions[id])["status"]) == status
      && Micros(created) + 60000000 * ParseMinutes(olderThan).value <= Micros(now)
  {
    AgeQueryFiltersViews(events, status, Rendered(threshold));
    TextOrderIsTimeOrder(created, threshold);
  }

  // ----- why updated_at is not among the coherent columns

  ghost function SessionUpdated(db: Db, id: string, updates: Object, now: string): Db {
    Step(db, Event(UpdateSession(id, updates), now, 1))
  }

  ghost function UpdatedRepeatedly(db: Db, id: string, changes: seq<(Object, string)>): Db {
    if changes == [] then db
    else
      var last := changes[|changes| - 1];
      SessionUpdated(UpdatedRepeatedly(db, id, changes[..|changes| - 1]), id, last.0, last.1)
  }

  /** The updated_at a reader sees: the one supplied last, or else the one from before. */
  function LastSupplied(before: Value, changes: seq<(Object, string)>): Value {
    if changes == [] then before
    else
      Get(changes[|changes| - 1].0, "updated_at", LastSupplied(before, changes[..|changes| - 1]))
  }

  lemma OneUpdateView(db: Db, id: string, updates: Object, now: string)
    requires id in db.sessions
    ensures var after := SessionUpdated(db, id, updates, now);
      && id in after.sessions
      && after.sessions[id].updatedAt == now
      && SessionView(id, after.sessions[id])["updated_at"]
           == Get(updates, "updated_at", SessionView(id, db.sessions[id])["updated_at"])
  {
    var merged := SessionView(id, db.sessions[id]) + updates;
    var stmt := SetSession(id, SessionRowFrom(merged, "", "", now));
    assert Take([stmt], 1) == [stmt];
    ApplyOne(db, stmt);
    assert SessionUpdated(db, id, updates, now).sessions[id].data == merged;
  }

  /** After any updates the column shows the time of the last one, the decoded view only what updates supplied. */
  lemma {:induction false} UpdatedAtFrozen(db: Db, id: string, changes: seq<(Object, string)>)
    requires id in db.sessions
    ensures var after := UpdatedRepeatedly(db, id, changes);
      && id in after.sessions
      && (changes != [] ==> after.sessions[id].updatedAt == changes[|changes| - 1].1)
      && SessionView(id, after.sessions[id])["updated_at"]
           == LastSupplied(SessionView(id, db.sessions[id])["updated_at"], changes)
  {
    if changes != [] {
      var before, last := changes[..|changes| - 1], changes[|changes| - 1];
      UpdatedAtFrozen(db, id, before);
      OneUpdateView(UpdatedRepeatedly(db, id, before), id, last.0, last.1);
    }
  }
}
