/** The store as its callers meet it: an object whose methods change the tables one commit at a time. */
module MetadataStore {
  import opened Ordered
  import opened Results
  import opened Values
  import opened Store
  import opened Coherence
  import opened RowIds
  import opened Cascade

  class MetadataStore {
    /** The database behind the connection. */
    var db: Db

    /** The calls the store has carried out. */
    ghost var history: seq<Event>

    /** The tables are what that run leaves. */
    ghost predicate Valid()
      reads this
    {
      db == Run(history)
    }

    /** The call was carried out to its end and is now the last of the history. */
    twostate predicate Performed(call: Call, now: string)
      reads this
    {
      && Valid()
      && history == old(history) + [Whole(old(db), call, now)]
      && db == Completed(old(db), call, now)
    }

    constructor ()
      ensures Valid() && history == [] && db == EMPTY
    {
      db := EMPTY;
      history := [];
    }

    /** Every store shares what holds in all runs. */
    lemma Invariants()
      requires Valid()
      ensures Written(db) && Numbered(db)
    {
      RunWritten(history);
      RunNumbered(history);
    }

    lemma AddedRuleIsFresh(rule: Object, now: string)
      requires Valid()
      ensures RuleRowFrom(rule, now).Ok? ==>
        RuleAdded(db.rules, Completed(db, Call.CreateNetworkRule(rule), now).rules, db.rules.next)
    {
      if RuleRowFrom(rule, now).Ok? {
        Invariants();
        NewRuleIsFresh(db, rule, now);
      }
    }

    ghost method Begin(call: Call, now: string)
      requires Valid()
      modifies this`history
      ensures history == old(history) + [Whole(db, call, now)]
      ensures Run(history) == Completed(db, call, now)
    {
      RunNext(history, call, now);
      history := history + [Whole(db, call, now)];
    }

    /** One statement, committed at once or not at all. */
    method Execute(stmt: Stmt) returns (r: Result<()>)
      modifies this`db
      ensures match Apply(old(db), stmt)
        case Ok(after) => r == Ok(()) && db == after
        case Err(error) => r == Err(error) && db == old(db)
      ensures db == ApplyAll(old(db), [stmt])
    {
      ApplyOne(db, stmt);
      match Apply(db, stmt) {
        case Ok(after) =>
          db := after;
          return Ok(());
        case Err(error) =>
          return Err(error);
      }
    }

    // ----- sessions

    method CreateSession(session: Object, now: string) returns (r: Result<string>)
      requires Valid()
      modifies this
      ensures Performed(Call.CreateSession(session), now)
      ensures r ==
        if "id" !in session then Err(KeyError)
        else if PyStr(session["id"]) in old(db).sessions then Err(IntegrityError)
        else Ok(PyStr(session["id"]))
    {
      Begin(Call.CreateSession(session), now);
      if "id" !in session {
        return Err(KeyError);
      }
      var id := PyStr(session["id"]);
      var done :- Execute(InsertSession(id, SessionRowFrom(session, "creating", now, now)));
      return Ok(id);
    }

    method UpdateSession(id: string, updates: Object, now: string) returns (found: bool)
      requires Valid()
      modifies this
      ensures Performed(Call.UpdateSession(id, updates), now)
      ensures found == (id in old(db).sessions)
    {
      Begin(Call.UpdateSession(id, updates), now);
      if id !in db.sessions {
        return false;
      }
      var merged := SessionView(id, db.sessions[id]) + updates;
      var done := Execute(SetSession(id, SessionRowFrom(merged, "", "", now)));
      return true;
    }

    /** The cascade, statement by statement, as the source commits it; order is the one it found the VMs in. */
    method DeleteSession(id: string) returns (ghost order: seq<string>)
      requires Valid()
      modifies this
      ensures db == SessionDeleted(old(db), id)
      ensures Enumerates(order, VmsOf(old(db), id)) && Performed(Call.DeleteSession(id, order), "")
    {
      var vms := VmsOf(db, id);
      DeleteRecords(id);
      order := DeleteAllocations(vms);
      CommitsAreCascade(old(db), id, order, "");
      RunNext(history, Call.DeleteSession(id, order), "");
      history := history + [Whole(old(db), Call.DeleteSession(id, order), "")];
    }

    method DeleteRecords(id: string)
      modifies this`db
      ensures db == RecordsDeleted(old(db), id)
    {
      var done := Execute(RemoveVmsOf(id));
      done := Execute(RemoveProxyOf(id));
      ghost var vms, proxies := VmsOutside(old(db).vms, id), Without(old(db).proxies, {id});
      assert db == old(db).(vms := vms, proxies := proxies);
      done := Execute(RemoveFolderOf(id));
      ghost var folders := Without(old(db).folders, {id});
      assert db == old(db).(vms := vms, proxies := proxies, folders := folders);
      done := Execute(RemoveRulesOf(id));
      done := Execute(RemoveSession(id));
    }

    method DeleteAllocations(vms: set<string>) returns (ghost order: seq<string>)
      modifies this`db
      ensures db == old(db).(allocations := Without(old(db).allocations, vms))
      ensures Enumerates(order, vms)
    {
      var pending := vms;
      order := [];
      ghost var rows := db.allocations.rows;
      assert rows - (vms - pending) == rows;
      while pending != {}
        invariant pending <= vms
        invariant db == old(db).(allocations := old(db).allocations.(rows := rows - (vms - pending)))
        invariant Enumerates(order, vms - pending)
      {
        ghost var some := Pick(pending);
        var vm :| vm in pending;
        assert rows - (vms - pending) - {vm} == rows - (vms - (pending - {vm}));
        EnumeratesMore(order, vms - pending, vm);
        assert vms - pending + {vm} == vms - (pending - {vm});
        var done := Execute(RemoveAllocationOf(vm));
        order := order + [vm];
        pending := pending - {vm};
      }
      assert vms - pending == vms;
    }

    // ----- VMs

    method CreateVm(vm: Object, now: string) returns (r: Result<string>)
      requires Valid()
      modifies this
      ensures Performed(Call.CreateVm(vm), now)
      ensures r ==
        if "id" !in vm then Err(KeyError)
        else if VmRowFrom(vm, "creating", now).Err? then Err(VmRowFrom(vm, "creating", now).error)
        else if PyStr(vm["id"]) in old(db).vms then Err(IntegrityError)
        else Ok(PyStr(vm["id"]))
    {
      Begin(Call.CreateVm(vm), now);
      if "id" !in vm {
        return Err(KeyError);
      }
      var id := PyStr(vm["id"]);
      var row :- VmRowFrom(vm, "creating", now);
      var done :- Execute(InsertVm(id, row));
      return Ok(id);
    }

    method UpdateVm(id: string, updates: Object) returns (r: Result<bool>)
      requires Valid()
      modifies this
      ensures Performed(Call.UpdateVm(id, updates), "")
      ensures r ==
        if id !in old(db).vms then Ok(false)
        else match VmRowFrom(VmView(id, old(db).vms[id]) + updates, "", "")
          case Ok(_) => Ok(true)
          case Err(error) => Err(error)
    {
      Begin(Call.UpdateVm(id, updates), "");
      if id !in db.vms {
        return Ok(false);
      }
      var merged := VmView(id, db.vms[id]) + updates;
      var row :- VmRowFrom(merged, "", "");
      var done := Execute(SetVm(id, row));
      return Ok(true);
    }

    method DeleteVm(id: string)
      requires Valid()
      modifies this
      ensures db == VmDeleted(old(db), id) && Performed(Call.DeleteVm(id), "")
    {
      Begin(Call.DeleteVm(id), "");
      VmCrashThenRetry(db, id, "", 0);
      var done := Execute(RemoveAllocationOf(id));
      done := Execute(RemoveVm(id));
    }

    // ----- proxies, shared folders, resource allocations

    method CreateProxy(proxy: Object) returns (r: Result<int>)
      requires Valid()
      modifies this
      ensures Performed(Call.CreateProxy(proxy), "")
      ensures r ==
        if ProxyRowFrom(proxy, "running").Err? then Err(ProxyRowFrom(proxy, "running").error)
        else if TextColumn(proxy, "session_id", "") in old(db).proxies.rows then Err(IntegrityError)
        else Ok(old(db).proxies.next)
    {
      Begin(Call.CreateProxy(proxy), "");
      var row :- ProxyRowFrom(proxy, "running");
      var rowId := db.proxies.next;
      var done :- Execute(InsertProxy(TextColumn(proxy, "session_id", ""), row));
      return Ok(rowId);
    }

    method UpdateProxy(session: string, updates: Object) returns (r: Result<()>)
      requires Valid()
      modifies this
      ensures Performed(Call.UpdateProxy(session, updates), "")
      ensures r ==
        if session !in old(db).proxies.rows then Ok(())
        else match ProxyRowFrom(ProxyView(session, old(db).proxies.rows[session]) + updates, "")
          case Ok(_) => Ok(())
          case Err(error) => Err(error)
    {
      Begin(Call.UpdateProxy(session, updates), "");
      if session !in db.proxies.rows {
        return Ok(());
      }
      var merged := ProxyView(session, db.proxies.rows[session]) + updates;
      var row :- ProxyRowFrom(merged, "");
      var done := Execute(SetProxy(session, row));
      return Ok(());
    }

    method DeleteProxy(session: string)
      requires Valid()
      modifies this
      ensures db == old(db).(proxies := Without(old(db).proxies, {session}))
      ensures Performed(Call.DeleteProxy(session), "")
    {
      Begin(Call.DeleteProxy(session), "");
      var done := Execute(RemoveProxyOf(session));
    }

    method CreateSharedFolder(folder: Object) returns (r: Result<int>)
      requires Valid()
      modifies this
      ensures Performed(Call.CreateSharedFolder(folder), "")
      ensures r ==
        if TextColumn(folder, "session_id", "") in old(db).folders.rows then Err(IntegrityError)
        else Ok(old(db).folders.next)
    {
      Begin(Call.CreateSharedFolder(folder), "");
      var rowId := db.folders.next;
      var row := FolderRow(0, TextColumn(folder, "host_path", ""), folder);
      var done :- Execute(InsertFolder(TextColumn(folder, "session_id", ""), row));
      return Ok(rowId);
    }

    method DeleteSharedFolder(session: string)
      requires Valid()
      modifies this
      ensures db == old(db).(folders := Without(old(db).folders, {session}))
      ensures Performed(Call.DeleteSharedFolder(session), "")
    {
      Begin(Call.DeleteSharedFolder(session), "");
      var done := Execute(RemoveFolderOf(session));
    }

    method CreateResourceAllocation(allocation: Object) returns (r: Result<int>)
      requires Valid()
      modifies this
      ensures Performed(Call.CreateResourceAllocation(allocation), "")
      ensures r ==
        if AllocationRowFrom(allocation).Err? then Err(AllocationRowFrom(allocation).error)
        else if TextColumn(allocation, "vm_id", "") in old(db).allocations.rows then Err(IntegrityError)
        else Ok(old(db).allocations.next)
    {
      Begin(Call.CreateResourceAllocation(allocation), "");
      var row :- AllocationRowFrom(allocation);
      var rowId := db.allocations.next;
      var done :- Execute(InsertAllocation(TextColumn(allocation, "vm_id", ""), row));
      return Ok(rowId);
    }

    method DeleteAllocation(vmId: string)
      requires Valid()
      modifies this
      ensures db == old(db).(allocations := Without(old(db).allocations, {vmId}))
      ensures Performed(Call.DeleteAllocation(vmId), "")
    {
      Begin(Call.DeleteAllocation(vmId), "");
      var done := Execute(RemoveAllocationOf(vmId));
    }

    // ----- network rules and audit log

    method CreateNetworkRule(rule: Object, now: string) returns (r: Result<int>)
      requires Valid()
      modifies this
      ensures Performed(Call.CreateNetworkRule(rule), now)
      ensures r == match RuleRowFrom(rule, now)
        case Ok(_) => Ok(old(db).rules.next)
        case Err(error) => Err(error)
      ensures r.Ok? ==> RuleAdded(old(db).rules, db.rules, r.value)
    {
      AddedRuleIsFresh(rule, now);
      Begin(Call.CreateNetworkRule(rule), now);
      var row :- RuleRowFrom(rule, now);
      var rowId := db.rules.next;
      var done := Execute(InsertRule(row));
      return Ok(rowId);
    }

    method DeactivateNetworkRule(ruleId: int, now: string)
      requires Valid()
      modifies this
      ensures Performed(Call.DeactivateNetworkRule(ruleId), now)
      ensures db == old(db).(rules := OneRuleRetired(old(db).rules, ruleId, now))
    {
      Begin(Call.DeactivateNetworkRule(ruleId), now);
      var done := Execute(RetireRule(ruleId, now));
      assert db.rules.rows == OneRuleRetired(old(db).rules, ruleId, now).rows;
    }

    method DeactivateAllNetworkRules(session: string, now: string)
      requires Valid()
      modifies this
      ensures db == old(db).(rules := RulesRetired(old(db).rules, session, now))
      ensures Performed(Call.DeactivateAllNetworkRules(session), now)
    {
      Begin(Call.DeactivateAllNetworkRules(session), now);
      var done := Execute(RetireRulesOf(session, now));
    }

    method DeleteNetworkRules(session: string)
      requires Valid()
      modifies this
      ensures db == old(db).(rules := RulesOutside(old(db).rules, session))
      ensures Performed(Call.DeleteNetworkRules(session), "")
    {
      Begin(Call.DeleteNetworkRules(session), "");
      var done := Execute(RemoveRulesOf(session));
    }

    method InsertAuditEvent(event: Object, now: string) returns (rowId: int)
      requires Valid()
      modifies this
      ensures Performed(Call.InsertAuditEvent(event), now)
      ensures |db.audit| == |old(db).audit| + 1 && old(db).audit <= db.audit && rowId == |db.audit|
    {
      Begin(Call.InsertAuditEvent(event), now);
      AuditAppended(db, event, now);
      var row := AuditRow(
        TextColumn(event, "session_id", ""), TextColumn(event, "event_type", "unknown"),
        TextColumn(event, "timestamp", now), event);
      var done := Execute(InsertAudit(row));
      return |db.audit|;
    }
  }

  lemma AuditAppended(db: Db, event: Object, now: string)
    ensures var after := Completed(db, InsertAuditEvent(event), now);
      |after.audit| == |db.audit| + 1 && db.audit <= after.audit
  {
    ApplyOne(db, Plan(db, InsertAuditEvent(event), now).value[0]);
  }

  /** The table with one rule stamped and every other rule as it was. */
  function OneRuleRetired(rules: Table<int, RuleRow>, ruleId: int, at: string): Table<int, RuleRow> {
    rules.(rows := map i | i in rules.rows ::
      if i == ruleId then rules.rows[i].(removedAt := Some(at)) else rules.rows[i])
  }
}
