/** Network rules of a session, and what readers see of new records. */
module Records {
  import opened Results
  import opened Text
  import opened Values
  import opened Store
  import opened Coherence

  // ----- rules of a session

  /** The rules whose decoded views name the session and, if asked, show no removal. */
  function RulesByView(db: Db, session: string, activeOnly: bool): map<int, Object> {
    map i | i in db.rules.rows
      && PyStr(Get(RuleView(i, db.rules.rows[i]), "session_id", Null)) == session
      && (activeOnly ==> Get(RuleView(i, db.rules.rows[i]), "removed_at", Null) == Null)
      :: RuleView(i, db.rules.rows[i])
  }

  /** A retired rule whose payload still says "removed_at": null. */
  predicate HidesRemoval(r: RuleRow) {
    r.removedAt.Some? && "removed_at" in r.data && r.data["removed_at"] == Null
  }

  lemma RuleViewAgrees(i: int, r: RuleRow)
    requires RuleWritten(r)
    ensures PyStr(RuleView(i, r)["session_id"]) == r.sessionId
    ensures RuleView(i, r)["removed_at"] == Null <==> r.removedAt == None || HidesRemoval(r)
  {
  }

  lemma AllRuleQuery(db: Db, session: string)
    requires RulesWritten(db)
    ensures RulesOfSession(db, session, false) == RulesByView(db, session, false)
  {
    forall i | i in db.rules.rows {
      RuleViewAgrees(i, db.rules.rows[i]);
    }
  }

  lemma ActiveRuleQuery(db: Db, session: string)
    requires RulesWritten(db)
    ensures forall i :: i in RulesOfSession(db, session, true) <==>
      i in RulesByView(db, session, true) && !HidesRemoval(db.rules.rows[i])
  {
    forall i | i in db.rules.rows {
      RuleViewAgrees(i, db.rules.rows[i]);
    }
  }

  /** get_network_rules selects by the columns what its decoded views say: every rule of the session,
      or all of its rules that show no removal, unless one was retired over an explicit null. */
  lemma RulesFilterViews(events: seq<Event>, session: string)
    ensures RulesOfSession(Run(events), session, false) == RulesByView(Run(events), session, false)
    ensures RulesOfSession(Run(events), session, true).Keys <= RulesByView(Run(events), session, true).Keys
    ensures RulesOfSession(Run(events), session, true) == RulesByView(Run(events), session, true) <==>
      forall i :: i in RulesOfSession(Run(events), session, false) ==> !HidesRemoval(Run(events).rules.rows[i])
  {
    RunWritten(events);
    AllRuleQuery(Run(events), session);
    ActiveRuleQuery(Run(events), session);
    var db := Run(events);
    if RulesOfSession(db, session, true) == RulesByView(db, session, true) {
      forall i | i in RulesOfSession(db, session, false) ensures !HidesRemoval(db.rules.rows[i]) {
        RuleViewAgrees(i, db.rules.rows[i]);
        assert HidesRemoval(db.rules.rows[i]) ==> i in RulesByView(db, session, true);
      }
    } else {
      var i :| i in RulesByView(db, session, true) && i !in RulesOfSession(db, session, true);
      assert HidesRemoval(db.rules.rows[i]);
    }
  }

  lemma RetiredRules(db: Db, session: string, now: string)
    ensures Completed(db, DeactivateAllNetworkRules(session), now) == db.(rules := RulesRetired(db.rules, session, now))
  {
    ApplyOne(db, RetireRulesOf(session, now));
  }

  /** Retiring a session's rules empties its active list, keeps its full list,
      and leaves every other session's rules as they were. */
  lemma RetireAllMeaning(db: Db, session: string, now: string, other: string, active: bool)
    ensures var after := Completed(db, DeactivateAllNetworkRules(session), now);
      && RulesOfSession(after, session, true) == map[]
      && RulesOfSession(after, session, false).Keys == RulesOfSession(db, session, false).Keys
      && (other != session ==> RulesOfSession(after, other, active) == RulesOfSession(db, other, active))
  {
    RetiredRules(db, session, now);
    if other != session {
      OtherRulesKept(db, session, now, other, active);
    }
  }

  /** Every rule of the session is stamped with the time of the call and keeps the rest of its row. */
  lemma RetiredRows(db: Db, session: string, now: string, i: int)
    ensures var after := Completed(db, DeactivateAllNetworkRules(session), now);
      && after.rules.rows.Keys == db.rules.rows.Keys && after == db.(rules := db.rules.(rows := after.rules.rows))
      && (i in db.rules.rows && db.rules.rows[i].sessionId == session ==>
            after.rules.rows[i] == db.rules.rows[i].(removedAt := Some(now)))
      && (i in db.rules.rows && db.rules.rows[i].sessionId != session ==> after.rules.rows[i] == db.rules.rows[i])
  {
    RetiredRules(db, session, now);
  }

  /** The same for one rule by its id. */
  lemma RetiredRow(db: Db, rule: int, now: string)
    ensures var after := Completed(db, DeactivateNetworkRule(rule), now);
      after == if rule !in db.rules.rows then db
               else db.(rules := db.rules.(
                      rows := db.rules.rows[rule := db.rules.rows[rule].(removedAt := Some(now))]))
  {
    ApplyOne(db, RetireRule(rule, now));
  }

  lemma OtherRulesKept(db: Db, session: string, now: string, other: string, active: bool)
    requires other != session
    ensures RulesOfSession(db.(rules := RulesRetired(db.rules, session, now)), other, active)
      == RulesOfSession(db, other, active)
  {
  }

  /** Retiring one rule shows in its decoded view exactly when the payload never mentioned removed_at. */
  lemma RetiredRuleView(db: Db, rule: int, now: string)
    requires rule in db.rules.rows
    ensures var after := Completed(db, DeactivateNetworkRule(rule), now);
      && rule in after.rules.rows
      && rule !in RulesOfSession(after, db.rules.rows[rule].sessionId, true)
      && (RuleView(rule, after.rules.rows[rule])["removed_at"] == Str(now) <==>
            ("removed_at" in db.rules.rows[rule].data ==> db.rules.rows[rule].data["removed_at"] == Str(now)))
  {
    ApplyOne(db, RetireRule(rule, now));
  }

  // ----- how values are stored

  /** str() of the values JSON knows. */
  lemma StoredTexts(n: int, s: string)
    ensures PyStr(Null) == "None" && PyStr(Bool(true)) == "True" && PyStr(Bool(false)) == "False"
    ensures PyStr(Str(s)) == s && IntValue(PyStr(Int(n))) == Some(n) && PyStr(Int(n)) == IntText(n)
  {
    IntValueOfText(n);
  }

  /** _as_int: null counts as 0, a bool as 0 or 1, a text as int() reads it, a list or object is refused. */
  lemma StoredNumbers(n: int, s: string)
    ensures AsInt(Null) == Ok(0) && AsInt(Bool(true)) == Ok(1) && AsInt(Bool(false)) == Ok(0)
    ensures AsInt(Int(n)) == Ok(n) && AsInt(Str(IntText(n))) == Ok(n)
    ensures AsInt(Str(s)).Ok? <==> IntValue(s).Some?
    ensures AsInt(Str(s)).Ok? ==> IntValue(s) == Some(AsInt(Str(s)).value)
    ensures AsInt(Str(s)).Err? ==> AsInt(Str(s)) == Err(ValueError)
    ensures AsInt(Other(s)) == Err(ValueError)
  {
    IntValueOfText(n);
  }

  /** SQLite's integer columns hold 64 bits. */
  lemma SixtyFourBits(n: int)
    ensures FitsInt64(n) <==> n / 0x8000_0000_0000_0000 in {0, -1}
  {
  }

  predicate AllConvert(obj: Object, keys: seq<string>) {
    forall i :: 0 <= i < |keys| ==> AsInt(Get(obj, keys[i], Int(0))).Ok?
  }

  predicate AllFit(obj: Object, keys: seq<string>) {
    AllConvert(obj, keys) && forall i :: 0 <= i < |keys| ==> FitsInt64(AsInt(Get(obj, keys[i], Int(0))).value)
  }

  const RESOURCES := ["cpu_cores", "memory_mb", "disk_gb"]
  const PORT_AND_PID := ["port", "pid"]

  /** A number that does not convert raises ValueError; if all convert, one that does not fit OverflowError. */
  lemma RefusedVm(obj: Object, status: string, createdAt: string)
    ensures var r := VmRowFrom(obj, status, createdAt);
      && (r.Ok? <==> AllFit(obj, RESOURCES))
      && (r.Err? ==> r.error == if AllConvert(obj, RESOURCES) then OverflowError else ValueError)
  {
    NamedResources(obj);
  }

  lemma RefusedAllocation(obj: Object)
    ensures var r := AllocationRowFrom(obj);
      && (r.Ok? <==> AllFit(obj, RESOURCES))
      && (r.Err? ==> r.error == if AllConvert(obj, RESOURCES) then OverflowError else ValueError)
  {
    NamedResources(obj);
  }

  lemma NamedResources(obj: Object)
    ensures AllConvert(obj, RESOURCES) <==>
      IntColumn(obj, "cpu_cores").Ok? && IntColumn(obj, "memory_mb").Ok? && IntColumn(obj, "disk_gb").Ok?
    ensures AllConvert(obj, RESOURCES) ==>
      (AllFit(obj, RESOURCES) <==>
         && FitsInt64(IntColumn(obj, "cpu_cores").value) && FitsInt64(IntColumn(obj, "memory_mb").value)
         && FitsInt64(IntColumn(obj, "disk_gb").value))
  {
    assert RESOURCES[0] == "cpu_cores" && RESOURCES[1] == "memory_mb" && RESOURCES[2] == "disk_gb";
  }

  lemma RefusedProxy(obj: Object, status: string)
    ensures var r := ProxyRowFrom(obj, status);
      && (r.Ok? <==> AllFit(obj, PORT_AND_PID))
      && (r.Err? ==> r.error == if AllConvert(obj, PORT_AND_PID) then OverflowError else ValueError)
  {
    assert PORT_AND_PID[0] == "port" && PORT_AND_PID[1] == "pid";
  }

  /** A rule is refused only for its removed_at: a number too large, or a list or object. */
  lemma RefusedRule(obj: Object, now: string)
    ensures var r, v := RuleRowFrom(obj, now), Get(obj, "removed_at", Null);
      && (r == Err(OverflowError) <==> v.Int? && !FitsInt64(v.n))
      && (r == Err(BindingError) <==> v.Other?)
      && (r.Ok? <==> !v.Other? && (v.Int? ==> FitsInt64(v.n)))
  {
  }

  // ----- what readers see of new records

  // The defaults of each kind of record.

  function SessionDefaults(now: string): Object {
    map["owner" := Str(""), "status" := Str("creating"), "created_at" := Str(now), "updated_at" := Str(now)]
  }

  function VmDefaults(now: string): Object {
    map["session_id" := Str(""), "name" := Str(""), "status" := Str("creating"), "base_image" := Str(""),
        "cpu_cores" := Int(0), "memory_mb" := Int(0), "disk_gb" := Int(0), "created_at" := Str(now)]
  }

  function ProxyDefaults(id: int): Object {
    map["id" := Int(id), "session_id" := Str(""), "port" := Int(0), "pid" := Int(0), "status" := Str("running")]
  }

  function FolderDefaults(id: int): Object {
    map["id" := Int(id), "session_id" := Str(""), "host_path" := Str("")]
  }

  function AllocationDefaults(id: int): Object {
    map["id" := Int(id), "vm_id" := Str(""), "cpu_cores" := Int(0), "memory_mb" := Int(0), "disk_gb" := Int(0)]
  }

  function RuleDefaults(id: int, now: string): Object {
    map["id" := Int(id), "session_id" := Str(""), "domain" := Str(""), "action" := Str("allow"),
        "source" := Str("runtime"), "created_at" := Str(now), "removed_at" := Null]
  }

  function AuditDefaults(id: int, now: string): Object {
    map["id" := Int(id), "session_id" := Str(""), "event_type" := Str("unknown"), "timestamp" := Str(now)]
  }

  /** Columns that show the defaults wherever the payload is silent make the same view as the defaults. */
  lemma Overlaid(columns: Object, defaults: Object, data: Object)
    requires columns.Keys + data.Keys == defaults.Keys + data.Keys
    requires forall key :: key in defaults && key !in data ==> columns[key] == defaults[key]
    ensures columns + data == defaults + data
  {
  }

  /** Every key a new record leaves out shows its default, and every key it has is as it was. */
  lemma NewSessionView(db: Db, obj: Object, now: string)
    requires "id" in obj && PyStr(obj["id"]) !in db.sessions
    ensures var after, id := Completed(db, CreateSession(obj), now), PyStr(obj["id"]);
      && id in after.sessions && after == db.(sessions := db.sessions[id := after.sessions[id]])
      && SessionView(id, after.sessions[id]) == SessionDefaults(now) + obj
  {
    var id, row := PyStr(obj["id"]), SessionRowFrom(obj, "creating", now, now);
    Overlaid(SessionColumns(id, row), SessionDefaults(now), obj);
    CompletedOne(db, CreateSession(obj), now, InsertSession(id, row));
  }

  lemma FreshVm(obj: Object, now: string)
    requires "id" in obj && VmRowFrom(obj, "creating", now).Ok?
    ensures VmView(PyStr(obj["id"]), VmRowFrom(obj, "creating", now).value) == VmDefaults(now) + obj
  {
    var r := VmRowFrom(obj, "creating", now).value;
    FreshVmRow(obj, now, r);
    SilentVmColumns(PyStr(obj["id"]), r, now);
    Overlaid(VmColumns(PyStr(obj["id"]), r), VmDefaults(now), obj);
  }

  lemma SilentVmColumns(id: string, r: VmRow, now: string)
    requires "id" in r.data
    requires ("session_id" !in r.data ==> r.sessionId == "") && ("name" !in r.data ==> r.name == "")
    requires ("status" !in r.data ==> r.status == "creating") && ("base_image" !in r.data ==> r.baseImage == "")
    requires ("cpu_cores" !in r.data ==> r.cpu == 0) && ("memory_mb" !in r.data ==> r.memory == 0)
    requires ("disk_gb" !in r.data ==> r.disk == 0) && ("created_at" !in r.data ==> r.createdAt == now)
    ensures VmColumns(id, r).Keys + r.data.Keys == VmDefaults(now).Keys + r.data.Keys
    ensures forall key :: key in VmDefaults(now) && key !in r.data ==> VmColumns(id, r)[key] == VmDefaults(now)[key]
  {
  }

  lemma FreshVmRow(obj: Object, now: string, r: VmRow)
    requires VmRowFrom(obj, "creating", now) == Ok(r)
    ensures r.data == obj
    ensures ("session_id" !in obj ==> r.sessionId == "") && ("name" !in obj ==> r.name == "")
    ensures ("status" !in obj ==> r.status == "creating") && ("base_image" !in obj ==> r.baseImage == "")
    ensures ("cpu_cores" !in obj ==> r.cpu == 0) && ("memory_mb" !in obj ==> r.memory == 0)
    ensures ("disk_gb" !in obj ==> r.disk == 0) && ("created_at" !in obj ==> r.createdAt == now)
  {
  }

  lemma NewVmView(db: Db, obj: Object, now: string)
    requires "id" in obj && PyStr(obj["id"]) !in db.vms && VmRowFrom(obj, "creating", now).Ok?
    ensures var after, id := Completed(db, CreateVm(obj), now), PyStr(obj["id"]);
      && id in after.vms && after == db.(vms := db.vms[id := after.vms[id]])
      && VmView(id, after.vms[id]) == VmDefaults(now) + obj
  {
    var id, row := PyStr(obj["id"]), VmRowFrom(obj, "creating", now).value;
    FreshVm(obj, now);
    CompletedOne(db, CreateVm(obj), now, InsertVm(id, row));
  }

  lemma NewProxyView(db: Db, obj: Object)
    requires ProxyRowFrom(obj, "running").Ok? && TextColumn(obj, "session_id", "") !in db.proxies.rows
    ensures var after, session := Completed(db, CreateProxy(obj), ""), TextColumn(obj, "session_id", "");
      && session in after.proxies.rows
      && after == db.(proxies := Table(
           db.proxies.rows[session := after.proxies.rows[session]], db.proxies.next + 1))
      && ProxyView(session, after.proxies.rows[session]) == ProxyDefaults(db.proxies.next) + obj
  {
    var session, row := TextColumn(obj, "session_id", ""), ProxyRowFrom(obj, "running").value;
    Overlaid(ProxyColumns(session, row.(id := db.proxies.next)), ProxyDefaults(db.proxies.next), obj);
    CompletedOne(db, CreateProxy(obj), "", InsertProxy(session, row));
  }

  lemma NewFolderView(db: Db, obj: Object)
    requires TextColumn(obj, "session_id", "") !in db.folders.rows
    ensures var after, session := Completed(db, CreateSharedFolder(obj), ""), TextColumn(obj, "session_id", "");
      && session in after.folders.rows
      && after == db.(folders := Table(
           db.folders.rows[session := after.folders.rows[session]], db.folders.next + 1))
      && FolderView(session, after.folders.rows[session]) == FolderDefaults(db.folders.next) + obj
  {
    var session, row := TextColumn(obj, "session_id", ""), FolderRow(0, TextColumn(obj, "host_path", ""), obj);
    Overlaid(FolderColumns(session, row.(id := db.folders.next)), FolderDefaults(db.folders.next), obj);
    CompletedOne(db, CreateSharedFolder(obj), "", InsertFolder(session, row));
  }

  lemma FreshAllocation(obj: Object, row: AllocationRow)
    requires AllocationRowFrom(obj) == Ok(row.(id := 0))
    ensures AllocationView(TextColumn(obj, "vm_id", ""), row) == AllocationDefaults(row.id) + obj
  {
    Overlaid(AllocationColumns(TextColumn(obj, "vm_id", ""), row), AllocationDefaults(row.id), obj);
  }

  lemma NewAllocationView(db: Db, obj: Object)
    requires AllocationRowFrom(obj).Ok? && TextColumn(obj, "vm_id", "") !in db.allocations.rows
    ensures var after, vm := Completed(db, CreateResourceAllocation(obj), ""), TextColumn(obj, "vm_id", "");
      && vm in after.allocations.rows
      && after == db.(allocations := Table(
           db.allocations.rows[vm := after.allocations.rows[vm]], db.allocations.next + 1))
      && AllocationView(vm, after.allocations.rows[vm]) == AllocationDefaults(db.allocations.next) + obj
  {
    var vm, row := TextColumn(obj, "vm_id", ""), AllocationRowFrom(obj).value;
    FreshAllocation(obj, row.(id := db.allocations.next));
    CompletedOne(db, CreateResourceAllocation(obj), "", InsertAllocation(vm, row));
  }

  lemma FreshRule(id: int, obj: Object, now: string)
    requires RuleRowFrom(obj, now).Ok?
    ensures RuleView(id, RuleRowFrom(obj, now).value) == RuleDefaults(id, now) + obj
  {
    Overlaid(RuleColumns(id, RuleRowFrom(obj, now).value), RuleDefaults(id, now), obj);
  }

  lemma StoredRule(db: Db, obj: Object, now: string, row: RuleRow)
    requires RuleRowFrom(obj, now) == Ok(row)
    ensures Completed(db, CreateNetworkRule(obj), now)
      == db.(rules := Table(db.rules.rows[db.rules.next := row], db.rules.next + 1))
  {
    CompletedOne(db, CreateNetworkRule(obj), now, InsertRule(row));
  }

  lemma NewRuleView(db: Db, obj: Object, now: string)
    requires RuleRowFrom(obj, now).Ok?
    ensures var after, id := Completed(db, CreateNetworkRule(obj), now), db.rules.next;
      && id in after.rules.rows
      && after == db.(rules := Table(
           db.rules.rows[id := after.rules.rows[id]], db.rules.next + 1))
      && RuleView(id, after.rules.rows[id]) == RuleDefaults(id, now) + obj
  {
    var id, row := db.rules.next, RuleRowFrom(obj, now).value;
    FreshRule(id, obj, now);
    StoredRule(db, obj, now, row);
  }

  lemma NewAuditView(db: Db, obj: Object, now: string)
    ensures var after, n := Completed(db, InsertAuditEvent(obj), now), |db.audit|;
      && |after.audit| == n + 1 && after == db.(audit := db.audit + [after.audit[n]])
      && AuditView(n + 1, after.audit[n]) == AuditDefaults(n + 1, now) + obj
  {
    var stmt := Plan(db, InsertAuditEvent(obj), now).value[0];
    Overlaid(AuditColumns(|db.audit| + 1, stmt.event), AuditDefaults(|db.audit| + 1, now), obj);
    CompletedOne(db, InsertAuditEvent(obj), now, stmt);
  }

  /** A new rule is active exactly when its record has no removed_at, or a null one. */
  lemma NewRuleActive(db: Db, obj: Object, now: string)
    requires RuleRowFrom(obj, now).Ok?
    ensures var after := Completed(db, CreateNetworkRule(obj), now);
      var active := RulesOfSession(after, TextColumn(obj, "session_id", ""), true);
      db.rules.next in active <==> Get(obj, "removed_at", Null) == Null
  {
    ApplyOne(db, InsertRule(RuleRowFrom(obj, now).value));
  }
}
