/** The metadata store: its tables, the statements it commits, and what each call executes. */
module Store {
  import opened Results
  import opened Values
  import opened Timestamps

  // ----- tables

  // Every row holds its record twice: as typed columns and as the JSON payload data.

  datatype SessionRow = SessionRow(owner: string, status: string, createdAt: string, updatedAt: string, data: Object)

  datatype VmRow = VmRow(
    sessionId: string, name: string, status: string, baseImage: string,
    cpu: int, memory: int, disk: int, createdAt: string, data: Object)

  datatype ProxyRow = ProxyRow(id: int, port: int, pid: int, status: string, data: Object)

  datatype FolderRow = FolderRow(id: int, hostPath: string, data: Object)

  datatype AllocationRow = AllocationRow(id: int, cpu: int, memory: int, disk: int, data: Object)

  datatype RuleRow = RuleRow(
    sessionId: string, domain: string, action: string, source: string,
    createdAt: string, removedAt: Option<string>, data: Object)

  datatype AuditRow = AuditRow(sessionId: string, eventType: string, timestamp: string, data: Object)

  /** Rows under their UNIQUE (or primary) key, and the next AUTOINCREMENT id. */
  datatype Table<K(==), R> = Table(rows: map<K, R>, next: int)

  /** proxies and shared_folders are keyed by session_id, resource_allocations by vm_id. */
  datatype Db = Db(
    sessions: map<string, SessionRow>,
    vms: map<string, VmRow>,
    proxies: Table<string, ProxyRow>,
    folders: Table<string, FolderRow>,
    allocations: Table<string, AllocationRow>,
    rules: Table<int, RuleRow>,
    audit: seq<AuditRow>)

  const EMPTY := Db(map[], map[], Table(map[], 1), Table(map[], 1), Table(map[], 1), Table(map[], 1), [])

  // ----- decoded views: the payload, completed with the columns it does not mention

  // Each view overlays the row's columns with its payload.

  function SessionColumns(id: string, r: SessionRow): Object {
    map["id" := Str(id), "owner" := Str(r.owner), "status" := Str(r.status),
        "created_at" := Str(r.createdAt), "updated_at" := Str(r.updatedAt)]
  }

  function SessionView(id: string, r: SessionRow): Object {
    SessionColumns(id, r) + r.data
  }

  function VmColumns(id: string, r: VmRow): Object {
    map["id" := Str(id), "session_id" := Str(r.sessionId), "name" := Str(r.name), "status" := Str(r.status),
        "base_image" := Str(r.baseImage), "cpu_cores" := Int(r.cpu), "memory_mb" := Int(r.memory),
        "disk_gb" := Int(r.disk), "created_at" := Str(r.createdAt)]
  }

  function VmView(id: string, r: VmRow): Object {
    VmColumns(id, r) + r.data
  }

  function ProxyColumns(session: string, r: ProxyRow): Object {
    map["id" := Int(r.id), "session_id" := Str(session), "port" := Int(r.port), "pid" := Int(r.pid),
        "status" := Str(r.status)]
  }

  function ProxyView(session: string, r: ProxyRow): Object {
    ProxyColumns(session, r) + r.data
  }

  function FolderColumns(session: string, r: FolderRow): Object {
    map["id" := Int(r.id), "session_id" := Str(session), "host_path" := Str(r.hostPath)]
  }

  function FolderView(session: string, r: FolderRow): Object {
    FolderColumns(session, r) + r.data
  }

  function AllocationColumns(vmId: string, r: AllocationRow): Object {
    map["id" := Int(r.id), "vm_id" := Str(vmId), "cpu_cores" := Int(r.cpu), "memory_mb" := Int(r.memory),
        "disk_gb" := Int(r.disk)]
  }

  function AllocationView(vmId: string, r: AllocationRow): Object {
    AllocationColumns(vmId, r) + r.data
  }

  function AuditColumns(id: int, r: AuditRow): Object {
    map["id" := Int(id), "session_id" := Str(r.sessionId), "event_type" := Str(r.eventType),
        "timestamp" := Str(r.timestamp)]
  }

  function AuditView(id: int, r: AuditRow): Object {
    AuditColumns(id, r) + r.data
  }

  function RuleColumns(id: int, r: RuleRow): Object {
    map["id" := Int(id), "session_id" := Str(r.sessionId), "domain" := Str(r.domain), "action" := Str(r.action),
        "source" := Str(r.source), "created_at" := Str(r.createdAt),
        "removed_at" := if r.removedAt.Some? then Str(r.removedAt.value) else Null]
  }

  function RuleView(id: int, r: RuleRow): Object {
    RuleColumns(id, r) + r.data
  }

  // ----- statements, each committed on its own

  datatype Stmt =
    | InsertSession(id: string, sessionRow: SessionRow)
    | SetSession(id: string, sessionRow: SessionRow)   // leaves created_at alone
    | RemoveSession(id: string)
    | InsertVm(id: string, vm: VmRow)
    | SetVm(id: string, vm: VmRow)                  // leaves created_at alone
    | RemoveVm(id: string)
    | RemoveVmsOf(session: string)
    | InsertProxy(session: string, proxy: ProxyRow)
    | SetProxy(session: string, proxy: ProxyRow)    // leaves id alone
    | RemoveProxyOf(session: string)
    | InsertFolder(session: string, folder: FolderRow)
    | RemoveFolderOf(session: string)
    | InsertAllocation(vmId: string, allocation: AllocationRow)
    | RemoveAllocationOf(vmId: string)
    | InsertRule(rule: RuleRow)
    | RetireRule(ruleId: int, at: string)
    | RetireRulesOf(session: string, at: string)
    | RemoveRulesOf(session: string)
    | InsertAudit(event: AuditRow)

  function Without<K, R>(t: Table<K, R>, keys: set<K>): Table<K, R> {
    t.(rows := t.rows - keys)
  }

  function VmsOutside(vms: map<string, VmRow>, session: string): map<string, VmRow> {
    map v | v in vms && vms[v].sessionId != session :: vms[v]
  }

  function RulesOutside(rules: Table<int, RuleRow>, session: string): Table<int, RuleRow> {
    rules.(rows := map i | i in rules.rows && rules.rows[i].sessionId != session :: rules.rows[i])
  }

  function RulesRetired(rules: Table<int, RuleRow>, session: string, at: string): Table<int, RuleRow> {
    rules.(rows := map i | i in rules.rows ::
      if rules.rows[i].sessionId == session then rules.rows[i].(removedAt := Some(at)) else rules.rows[i])
  }

  /** The database after the statement; a key clash is an IntegrityError. */
  function Apply(db: Db, stmt: Stmt): Result<Db> {
    match stmt
    case InsertSession(id, session) =>
      if id in db.sessions then Err(IntegrityError) else Ok(db.(sessions := db.sessions[id := session]))
    case SetSession(id, session) =>
      if id !in db.sessions then Ok(db)
      else Ok(db.(sessions := db.sessions[id := session.(createdAt := db.sessions[id].createdAt)]))
    case RemoveSession(id) => Ok(db.(sessions := db.sessions - {id}))
    case InsertVm(id, vm) =>
      if id in db.vms then Err(IntegrityError) else Ok(db.(vms := db.vms[id := vm]))
    case SetVm(id, vm) =>
      if id !in db.vms then Ok(db)
      else Ok(db.(vms := db.vms[id := vm.(createdAt := db.vms[id].createdAt)]))
    case RemoveVm(id) => Ok(db.(vms := db.vms - {id}))
    case RemoveVmsOf(session) => Ok(db.(vms := VmsOutside(db.vms, session)))
    case InsertProxy(session, proxy) =>
      if session in db.proxies.rows then Err(IntegrityError)
      else Ok(db.(proxies := Table(
                    db.proxies.rows[session := proxy.(id := db.proxies.next)], db.proxies.next + 1)))
    case SetProxy(session, proxy) =>
      if session !in db.proxies.rows then Ok(db)
      else Ok(db.(proxies := db.proxies.(
                    rows := db.proxies.rows[session := proxy.(id := db.proxies.rows[session].id)])))
    case RemoveProxyOf(session) => Ok(db.(proxies := Without(db.proxies, {session})))
    case InsertFolder(session, folder) =>
      if session in db.folders.rows then Err(IntegrityError)
      else Ok(db.(folders := Table(
                    db.folders.rows[session := folder.(id := db.folders.next)], db.folders.next + 1)))
    case RemoveFolderOf(session) => Ok(db.(folders := Without(db.folders, {session})))
    case InsertAllocation(vmId, allocation) =>
      if vmId in db.allocations.rows then Err(IntegrityError)
      else Ok(db.(allocations := Table(
                    db.allocations.rows[vmId := allocation.(id := db.allocations.next)], db.allocations.next + 1)))
    case RemoveAllocationOf(vmId) => Ok(db.(allocations := Without(db.allocations, {vmId})))
    case InsertRule(rule) =>
      Ok(db.(rules := Table(db.rules.rows[db.rules.next := rule], db.rules.next + 1)))
    case RetireRule(ruleId, at) =>
      if ruleId !in db.rules.rows then Ok(db)
      else Ok(db.(rules := db.rules.(
                    rows := db.rules.rows[ruleId := db.rules.rows[ruleId].(removedAt := Some(at))])))
    case RetireRulesOf(session, at) => Ok(db.(rules := RulesRetired(db.rules, session, at)))
    case RemoveRulesOf(session) => Ok(db.(rules := RulesOutside(db.rules, session)))
    case InsertAudit(event) => Ok(db.(audit := db.audit + [event]))
  }

  /** Statements committed one after the other, up to the first failure. */
  function ApplyAll(db: Db, stmts: seq<Stmt>): Db
    decreases |stmts|
  {
    if stmts == [] then db
    else
      match Apply(db, stmts[0])
      case Err(_) => db
      case Ok(after) => ApplyAll(after, stmts[1..])
  }

  lemma ApplyOne(db: Db, stmt: Stmt)
    ensures ApplyAll(db, [stmt]) == if Apply(db, stmt).Ok? then Apply(db, stmt).value else db
  {
    assert [stmt][1..] == [];
  }

  // ----- building rows from records

  predicate FitsInt64(n: int) {
    -0x8000_0000_0000_0000 <= n < 0x8000_0000_0000_0000
  }

  /** An integer column takes what _as_int makes of the value, if 64 bits can hold it. */
  function IntColumn(obj: Object, key: string): Result<int> {
    AsInt(Get(obj, key, Int(0)))
  }

  function TextColumn(obj: Object, key: string, default: string): string {
    PyStr(Get(obj, key, Str(default)))
  }

  function SessionRowFrom(obj: Object, status: string, createdAt: string, now: string): SessionRow {
    SessionRow(
      TextColumn(obj, "owner", ""), TextColumn(obj, "status", status), TextColumn(obj, "created_at", createdAt), now, obj)
  }

  function VmRowFrom(obj: Object, status: string, createdAt: string): Result<VmRow> {
    var cpu :- IntColumn(obj, "cpu_cores");
    var memory :- IntColumn(obj, "memory_mb");
    var disk :- IntColumn(obj, "disk_gb");
    if !FitsInt64(cpu) || !FitsInt64(memory) || !FitsInt64(disk) then Err(OverflowError)
    else Ok(VmRow(
      TextColumn(obj, "session_id", ""), TextColumn(obj, "name", ""), TextColumn(obj, "status", status),
      TextColumn(obj, "base_image", ""), cpu, memory, disk, TextColumn(obj, "created_at", createdAt), obj))
  }

  function ProxyRowFrom(obj: Object, status: string): Result<ProxyRow> {
    var port :- IntColumn(obj, "port");
    var pid :- IntColumn(obj, "pid");
    if !FitsInt64(port) || !FitsInt64(pid) then Err(OverflowError)
    else Ok(ProxyRow(0, port, pid, TextColumn(obj, "status", status), obj))
  }

  function AllocationRowFrom(obj: Object): Result<AllocationRow> {
    var cpu :- IntColumn(obj, "cpu_cores");
    var memory :- IntColumn(obj, "memory_mb");
    var disk :- IntColumn(obj, "disk_gb");
    if !FitsInt64(cpu) || !FitsInt64(memory) || !FitsInt64(disk) then Err(OverflowError)
    else Ok(AllocationRow(0, cpu, memory, disk, obj))
  }

  /** removed_at is bound as it is; the column's TEXT affinity turns numbers into text. */
  function BoundText(value: Value): Result<Option<string>> {
    match value
    case Null => Ok(None)
    case Str(s) => Ok(Some(s))
    case Bool(b) => Ok(Some(if b then "1" else "0"))
    case Int(n) => if FitsInt64(n) then Ok(Some(PyStr(value))) else Err(OverflowError)
    case Other(_) => Err(BindingError)
  }

  function RuleRowFrom(obj: Object, now: string): Result<RuleRow> {
    var removedAt :- BoundText(Get(obj, "removed_at", Null));
    Ok(RuleRow(
      TextColumn(obj, "session_id", ""), TextColumn(obj, "domain", ""), TextColumn(obj, "action", "allow"),
      TextColumn(obj, "source", "runtime"), TextColumn(obj, "created_at", now), removedAt, obj))
  }

  // ----- what each call executes

  datatype Call =
    | CreateSession(obj: Object)
    | UpdateSession(id: string, updates: Object)
    | DeleteSession(id: string, vmOrder: seq<string>)  // the order in which the first query returns the VM ids
    | CreateVm(obj: Object)
    | UpdateVm(id: string, updates: Object)
    | DeleteVm(id: string)
    | CreateProxy(obj: Object)
    | UpdateProxy(session: string, updates: Object)
    | DeleteProxy(session: string)
    | CreateSharedFolder(obj: Object)
    | DeleteSharedFolder(session: string)
    | CreateResourceAllocation(obj: Object)
    | DeleteAllocation(vmId: string)
    | CreateNetworkRule(obj: Object)
    | DeactivateNetworkRule(ruleId: int)
    | DeactivateAllNetworkRules(session: string)
    | DeleteNetworkRules(session: string)
    | InsertAuditEvent(obj: Object)

  function VmsOf(db: Db, session: string): set<string> {
    set v | v in db.vms && db.vms[v].sessionId == session
  }

  /** order lists the elements of s, each once. */
  predicate Enumerates(order: seq<string>, s: set<string>) {
    && (set v | v in order) == s
    && forall i, j :: 0 <= i < j < |order| ==> order[i] != order[j]
  }

  lemma EnumeratesMore(order: seq<string>, s: set<string>, v: string)
    requires Enumerates(order, s) && v !in s
    ensures Enumerates(order + [v], s + {v})
  {
    assert forall w :: w in order <==> w in (set x | x in order);
    forall i | 0 <= i < |order| ensures order[i] != v {
      assert order[i] in order;
    }
    assert (set x | x in order + [v]) == (set x | x in order) + {v};
  }

  function AllocationRemovals(vms: seq<string>): seq<Stmt> {
    if vms == [] then [] else AllocationRemovals(vms[..|vms| - 1]) + [RemoveAllocationOf(vms[|vms| - 1])]
  }

  function SessionRemovals(session: string): seq<Stmt> {
    [RemoveVmsOf(session), RemoveProxyOf(session), RemoveFolderOf(session), RemoveRulesOf(session),
     RemoveSession(session)]
  }

  /** The statements a call commits, or the exception it raises before the first of them. */
  function Plan(db: Db, call: Call, now: string): Result<seq<Stmt>> {
    match call
    case CreateSession(obj) =>
      if "id" !in obj then Err(KeyError)
      else Ok([InsertSession(PyStr(obj["id"]), SessionRowFrom(obj, "creating", now, now))])
    case UpdateSession(id, updates) =>
      if id !in db.sessions then Ok([])
      else
        var merged := SessionView(id, db.sessions[id]) + updates;
        Ok([SetSession(id, SessionRowFrom(merged, "", "", now))])
    case DeleteSession(id, vmOrder) => Ok(SessionRemovals(id) + AllocationRemovals(vmOrder))
    case CreateVm(obj) =>
      if "id" !in obj then Err(KeyError)
      else
        var row :- VmRowFrom(obj, "creating", now);
        Ok([InsertVm(PyStr(obj["id"]), row)])
    case UpdateVm(id, updates) =>
      if id !in db.vms then Ok([])
      else
        var row :- VmRowFrom(VmView(id, db.vms[id]) + updates, "", "");
        Ok([SetVm(id, row)])
    case DeleteVm(id) => Ok([RemoveAllocationOf(id), RemoveVm(id)])
    case CreateProxy(obj) =>
      var row :- ProxyRowFrom(obj, "running");
      Ok([InsertProxy(TextColumn(obj, "session_id", ""), row)])
    case UpdateProxy(session, updates) =>
      if session !in db.proxies.rows then Ok([])
      else
        var row :- ProxyRowFrom(ProxyView(session, db.proxies.rows[session]) + updates, "");
        Ok([SetProxy(session, row)])
    case DeleteProxy(session) => Ok([RemoveProxyOf(session)])
    case CreateSharedFolder(obj) =>
      Ok([InsertFolder(TextColumn(obj, "session_id", ""), FolderRow(0, TextColumn(obj, "host_path", ""), obj))])
    case DeleteSharedFolder(session) => Ok([RemoveFolderOf(session)])
    case CreateResourceAllocation(obj) =>
      var row :- AllocationRowFrom(obj);
      Ok([InsertAllocation(TextColumn(obj, "vm_id", ""), row)])
    case DeleteAllocation(vmId) => Ok([RemoveAllocationOf(vmId)])
    case CreateNetworkRule(obj) =>
      var row :- RuleRowFrom(obj, now);
      Ok([InsertRule(row)])
    case DeactivateNetworkRule(ruleId) => Ok([RetireRule(ruleId, now)])
    case DeactivateAllNetworkRules(session) => Ok([RetireRulesOf(session, now)])
    case DeleteNetworkRules(session) => Ok([RemoveRulesOf(session)])
    case InsertAuditEvent(obj) =>
      Ok([InsertAudit(AuditRow(
        TextColumn(obj, "session_id", ""), TextColumn(obj, "event_type", "unknown"),
        TextColumn(obj, "timestamp", now), obj))])
  }

  /** The store after a call that runs to its end. */
  function Completed(db: Db, call: Call, now: string): Db {
    match Plan(db, call, now)
    case Err(_) => db
    case Ok(stmts) => ApplyAll(db, stmts)
  }

  // ----- runs, with crashes between commits

  /** A call at a moment; the process may die after some of its commits. */
  datatype Event = Event(call: Call, now: string, commits: nat)

  function Take<T>(s: seq<T>, n: nat): seq<T> {
    if n < |s| then s[..n] else s
  }

  function Step(db: Db, e: Event): Db {
    match Plan(db, e.call, e.now)
    case Err(_) => db
    case Ok(stmts) => ApplyAll(db, Take(stmts, e.commits))
  }

  /** With enough commits a step is the whole call. */
  lemma CompletedIsStep(db: Db, call: Call, now: string, commits: nat)
    requires Plan(db, call, now).Ok? ==> |Plan(db, call, now).value| <= commits
    ensures Step(db, Event(call, now, commits)) == Completed(db, call, now)
  {
  }

  /** The event of a call that runs to its end. */
  function Whole(db: Db, call: Call, now: string): Event {
    Event(call, now, if Plan(db, call, now).Ok? then |Plan(db, call, now).value| else 0)
  }

  /** Runs allow any vmOrder in a DeleteSession, so they include every order SQLite could return. */
  function Run(events: seq<Event>): Db {
    if events == [] then EMPTY else Step(Run(events[..|events| - 1]), events[|events| - 1])
  }

  lemma RunNext(events: seq<Event>, call: Call, now: string)
    ensures Run(events + [Whole(Run(events), call, now)]) == Completed(Run(events), call, now)
  {
    var e := Whole(Run(events), call, now);
    assert (events + [e])[..|events|] == events;
    CompletedIsStep(Run(events), call, now, e.commits);
  }

  // ----- queries: which rows, each with its decoded view

  function ListSessions(db: Db, owner: Option<string>, status: Option<string>): map<string, Object> {
    map id | id in db.sessions
      && (owner.Some? ==> db.sessions[id].owner == owner.value)
      && (status.Some? ==> db.sessions[id].status == status.value)
      :: SessionView(id, db.sessions[id])
  }

  function SessionsByStatusAndAge(db: Db, status: string, threshold: string): map<string, Object> {
    map id | id in db.sessions && db.sessions[id].status == status && TextAtMost(db.sessions[id].createdAt, threshold)
      :: SessionView(id, db.sessions[id])
  }

  function ListVms(db: Db, status: Option<string>): map<string, Object> {
    map id | id in db.vms && (status.Some? ==> db.vms[id].status == status.value) :: VmView(id, db.vms[id])
  }

  function VmsByImage(db: Db, image: string): map<string, Object> {
    map id | id in db.vms && db.vms[id].baseImage == image :: VmView(id, db.vms[id])
  }

  function ActiveVms(db: Db): map<string, Object> {
    map id | id in db.vms && db.vms[id].status in {"running", "creating"} :: VmView(id, db.vms[id])
  }

  function RulesOfSession(db: Db, session: string, activeOnly: bool): map<int, Object> {
    map i | i in db.rules.rows && db.rules.rows[i].sessionId == session
      && (activeOnly ==> db.rules.rows[i].removedAt == None)
      :: RuleView(i, db.rules.rows[i])
  }
}
