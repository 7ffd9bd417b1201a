/** Rebuilding the capacity ledger from the store: when the two agree. */
module Reconcile {
  import opened Ordered
  import opened Results
  import opened Text
  import opened Values
  import opened Store
  import opened Coherence
  import opened Capacity

  // ----- what the ledger should be

  /** An active VM with a non-empty id. */
  predicate Counted(db: Db, id: string)
    requires id in db.vms
  {
    db.vms[id].status in {"running", "creating"} && id != ""
  }

  /** The resource columns of the counted VMs. */
  function ExpectedLedger(db: Db): Ledger {
    map id | id in db.vms && Counted(db, id) :: Allocation(db.vms[id].cpu, db.vms[id].memory, db.vms[id].disk)
  }

  /** A decoded resource the manager's coercion refuses although the store's accepted it. */
  predicate Refused(value: Value) {
    value.Null? || value.Bool?
  }

  predicate NumericAt(obj: Object, key: string) {
    key in obj ==> !Refused(obj[key])
  }

  predicate NumericView(view: Object) {
    NumericAt(view, "cpu_cores") && NumericAt(view, "memory_mb") && NumericAt(view, "disk_gb")
  }

  /** No counted VM shows a null or bool resource. */
  ghost predicate Clean(db: Db) {
    forall id :: id in db.vms && Counted(db, id) ==> NumericView(VmView(id, db.vms[id]))
  }

  /** A query result delivered as a list, in the given order of row ids. */
  function RowsOf(views: map<string, Object>, order: seq<string>): (rows: seq<Object>)
    requires forall i :: 0 <= i < |order| ==> order[i] in views
    ensures |rows| == |order|
    ensures forall i :: 0 <= i < |order| ==> rows[i] == views[order[i]]
  {
    seq(|order|, i requires 0 <= i < |order| => views[order[i]])
  }

  // ----- one row

  lemma ActiveWords()
    ensures Lower("running") == "running" && Lower("creating") == "creating"
  {
  }

  /** What an active VM's row contributes: it is filed under the id its decoded view shows. */
  function VmEntry(id: string, r: VmRow): Entry {
    var view := VmView(id, r);
    if RowId(view) != "" && NumericView(view) then Put(RowId(view), Allocation(r.cpu, r.memory, r.disk)) else Skip
  }

  lemma RowOfActiveVm(id: string, r: VmRow)
    requires VmWritten(r) && r.status in {"running", "creating"}
    ensures RowEntry(VmView(id, r)) == VmEntry(id, r)
  {
    VmViewAgrees(id, r);
    ActiveWords();
    var row := VmView(id, r);
    CoercionsAgree(row["cpu_cores"]);
    CoercionsAgree(row["memory_mb"]);
    CoercionsAgree(row["disk_gb"]);
  }

  // ----- all rows

  /** The entry each active VM gives rise to. */
  function EntryTable(db: Db): map<string, Entry> {
    map id | id in ActiveVms(db) :: VmEntry(id, db.vms[id])
  }

  function NumericVms(db: Db): set<string> {
    set id | id in db.vms && NumericView(VmView(id, db.vms[id]))
  }

  function PutsIn(table: map<string, Entry>, ids: seq<string>): Ledger {
    map id | id in ids && id in table && table[id].Put? :: table[id].allocation
  }

  predicate EntriesOf(entries: seq<Entry>, table: map<string, Entry>, order: seq<string>) {
    && |entries| == |order|
    && forall i :: 0 <= i < |order| ==> order[i] in table && entries[i] == table[order[i]]
  }

  /** Entries that name their own key collect into one ledger, in whatever order they come. */
  lemma {:induction false} CollectedFromTable(table: map<string, Entry>, order: seq<string>, entries: seq<Entry>)
    requires forall id :: id in table && table[id].Put? ==> table[id].id == id
    requires EntriesOf(entries, table, order)
    ensures Collected(entries) == PutsIn(table, order)
  {
    if order != [] {
      var front, last := order[..|order| - 1], order[|order| - 1];
      CollectedFromTable(table, front, entries[..|order| - 1]);
      assert order == front + [last];
    }
  }

  lemma ActiveEntries(db: Db, order: seq<string>)
    requires VmsWritten(db)
    requires forall i :: 0 <= i < |order| ==> order[i] in ActiveVms(db)
    ensures EntriesOf(RowEntries(RowsOf(ActiveVms(db), order)), EntryTable(db), order)
  {
    forall i | 0 <= i < |order|
      ensures RowEntries(RowsOf(ActiveVms(db), order))[i] == EntryTable(db)[order[i]]
    {
      RowOfActiveVm(order[i], db.vms[order[i]]);
    }
  }

  lemma EnumeratedActive(db: Db, order: seq<string>)
    requires Enumerates(order, ActiveVms(db).Keys)
    ensures forall i :: 0 <= i < |order| ==> order[i] in ActiveVms(db)
    ensures forall id :: id in order <==> id in ActiveVms(db)
  {
    assert forall id :: id in order <==> id in (set v | v in order);
    forall i | 0 <= i < |order| ensures order[i] in ActiveVms(db) {
      assert order[i] in order;
    }
  }

  /** The ledger reconciliation builds when the store returns the active VMs in this order. */
  function Reconciled(db: Db, order: seq<string>): Ledger
    requires Enumerates(order, ActiveVms(db).Keys)
  {
    EnumeratedActive(db, order);
    Rebuilt(RowsOf(ActiveVms(db), order))
  }

  lemma ReconciledEntries(db: Db, order: seq<string>) returns (entries: seq<Entry>)
    requires VmsWritten(db) && Enumerates(order, ActiveVms(db).Keys)
    ensures EntriesOf(entries, EntryTable(db), order) && Collected(entries) == Reconciled(db, order)
    ensures forall id :: id in order <==> id in ActiveVms(db)
  {
    EnumeratedActive(db, order);
    ActiveEntries(db, order);
    entries := RowEntries(RowsOf(ActiveVms(db), order));
  }

  // ----- VMs that show their own id

  /** Every active VM's decoded view shows the id it is stored under. */
  predicate OwnIds(db: Db) {
    forall id :: id in ActiveVms(db) ==> RowId(VmView(id, db.vms[id])) == id
  }

  lemma ShowsOwnId(id: string, r: VmRow)
    requires Agrees(r.data, "id", id)
    ensures RowId(VmView(id, r)) == id
  {
  }

  lemma RespectedIdsAreOwn(db: Db)
    requires Holds(db, VmId)
    ensures OwnIds(db)
  {
    forall id | id in ActiveVms(db) {
      ShowsOwnId(id, db.vms[id]);
    }
  }

  /** The expected ledger, less the VMs whose resources are not numbers. */
  function NumericPart(db: Db): Ledger {
    map id | id in ExpectedLedger(db) && id in NumericVms(db) :: ExpectedLedger(db)[id]
  }

  lemma OwnEntry(db: Db, id: string)
    requires OwnIds(db) && id in ActiveVms(db)
    ensures EntryTable(db)[id] ==
      if id in NumericPart(db) then Put(id, NumericPart(db)[id]) else Skip
  {
  }

  lemma PutsOfTable(table: map<string, Entry>, part: Ledger, order: seq<string>)
    requires part.Keys <= table.Keys
    requires forall id :: id in order <==> id in table
    requires forall id :: id in table ==> table[id] == if id in part then Put(id, part[id]) else Skip
    ensures PutsIn(table, order) == part
  {
  }

  lemma PutsAreNumericPart(db: Db, order: seq<string>)
    requires OwnIds(db) && forall id :: id in order <==> id in ActiveVms(db)
    ensures PutsIn(EntryTable(db), order) == NumericPart(db)
  {
    forall id | id in ActiveVms(db) {
      OwnEntry(db, id);
    }
    PutsOfTable(EntryTable(db), NumericPart(db), order);
  }

  /** Whatever the row order, the rebuilt ledger is the numeric part of the expected one. */
  lemma RebuiltFromStore(db: Db, order: seq<string>)
    requires VmsWritten(db) && OwnIds(db) && Enumerates(order, ActiveVms(db).Keys)
    ensures Reconciled(db, order) == NumericPart(db)
  {
    var entries := ReconciledEntries(db, order);
    PutsAreNumericPart(db, order);
    TableShape(db);
    CollectedFromTable(EntryTable(db), order, entries);
  }

  lemma TableShape(db: Db)
    requires OwnIds(db)
    ensures forall id :: id in EntryTable(db) && EntryTable(db)[id].Put? ==> EntryTable(db)[id].id == id
  {
  }

  /** Unless an update rewrote a VM's id, reconciling yields the resource columns of the active VMs
      exactly when none of them shows a null or bool resource. */
  lemma ReconcileRefinesStore(events: seq<Event>, order: seq<string>)
    requires RespectsRun(events, VmId)
    requires Enumerates(order, ActiveVms(Run(events)).Keys)
    ensures Reconciled(Run(events), order) == ExpectedLedger(Run(events)) <==> Clean(Run(events))
  {
    var db := Run(events);
    RunWritten(events);
    RespectedAspectHolds(events, VmId);
    RespectedIdsAreOwn(db);
    RebuiltFromStore(db, order);
    CleanMeaning(db);
    PartOfLedger(NumericPart(db), ExpectedLedger(db), NumericVms(db));
  }

  // ----- without any condition on the ids

  /** The ledger entries the decoded views of the active VMs ask for. */
  function ShownEntries(db: Db): set<(string, Allocation)> {
    set id | id in EntryTable(db) && EntryTable(db)[id].Put? :: (EntryTable(db)[id].id, EntryTable(db)[id].allocation)
  }

  /** Every collected entry was put there, and every entry leaves something under its id. */
  lemma {:induction false} CollectedMeaning(entries: seq<Entry>)
    ensures forall k :: k in Collected(entries) ==> Put(k, Collected(entries)[k]) in entries
    ensures forall e :: e in entries && e.Put? ==> e.id in Collected(entries)
  {
    if entries != [] {
      var front, last := entries[..|entries| - 1], entries[|entries| - 1];
      CollectedMeaning(front);
      assert entries == front + [last];
    }
  }

  lemma EntriesShown(db: Db, order: seq<string>, entries: seq<Entry>)
    requires forall id :: id in order <==> id in ActiveVms(db)
    requires EntriesOf(entries, EntryTable(db), order)
    ensures forall e :: e in entries && e.Put? ==> (e.id, e.allocation) in ShownEntries(db)
    ensures forall p :: p in ShownEntries(db) ==> Put(p.0, p.1) in entries
  {
    forall p | p in ShownEntries(db) ensures Put(p.0, p.1) in entries {
      var id :| id in EntryTable(db) && EntryTable(db)[id] == Put(p.0, p.1);
      assert id in order;
    }
  }

  lemma CollectedIs(entries: seq<Entry>, expected: Ledger)
    requires forall e :: e in entries && e.Put? ==> (e.id, e.allocation) in expected.Items
    requires forall p :: p in expected.Items ==> Put(p.0, p.1) in entries
    ensures Collected(entries) == expected
  {
    CollectedMeaning(entries);
    forall k
      ensures k in Collected(entries) <==> k in expected
      ensures k in Collected(entries) ==> Collected(entries)[k] == expected[k]
    {
      if k in Collected(entries) {
        assert (k, Collected(entries)[k]) in expected.Items;
      }
      if k in expected {
        assert (k, expected[k]) in expected.Items;
        assert Put(k, expected[k]) in entries;
      }
    }
  }

  lemma ShownAsExpected(db: Db, order: seq<string>)
    requires VmsWritten(db) && Enumerates(order, ActiveVms(db).Keys)
    requires ShownEntries(db) == ExpectedLedger(db).Items
    ensures Reconciled(db, order) == ExpectedLedger(db)
  {
    var entries := ReconciledEntries(db, order);
    EntriesShown(db, order, entries);
    CollectedIs(entries, ExpectedLedger(db));
  }

  lemma {:induction false} Enumeration(s: set<string>) returns (order: seq<string>)
    ensures Enumerates(order, s)
  {
    order := [];
    if s != {} {
      var v := Pick(s);
      order := EnumerationEndingWith(s, v);
    }
  }

  lemma {:induction false} EnumerationEndingWith(s: set<string>, v: string) returns (order: seq<string>)
    requires v in s
    ensures Enumerates(order, s) && order != [] && order[|order| - 1] == v
    decreases |s|
  {
    var rest := s - {v};
    var front: seq<string> := [];
    if rest != {} {
      var u := Pick(rest);
      front := EnumerationEndingWith(rest, u);
    }
    order := front + [v];
    EnumeratesMore(front, rest, v);
    assert rest + {v} == s;
  }

  /** An order that ends with a VM leaves that VM's entry in the ledger. */
  lemma LastEntryStays(db: Db, order: seq<string>, id: string)
    requires VmsWritten(db) && Enumerates(order, ActiveVms(db).Keys)
    requires order != [] && order[|order| - 1] == id && id in EntryTable(db) && EntryTable(db)[id].Put?
    ensures var e := EntryTable(db)[id];
      e.id in Reconciled(db, order) && Reconciled(db, order)[e.id] == e.allocation
  {
    var entries := ReconciledEntries(db, order);
    LastPutStays(entries, EntryTable(db)[id]);
  }

  lemma LastPutStays(entries: seq<Entry>, e: Entry)
    requires entries != [] && entries[|entries| - 1] == e && e.Put?
    ensures e.id in Collected(entries) && Collected(entries)[e.id] == e.allocation
  {
  }

  ghost predicate AlwaysAsExpected(db: Db) {
    forall order :: Enumerates(order, ActiveVms(db).Keys) ==> Reconciled(db, order) == ExpectedLedger(db)
  }

  lemma ExpectedAsShown(db: Db)
    requires VmsWritten(db) && AlwaysAsExpected(db)
    ensures ShownEntries(db) == ExpectedLedger(db).Items
  {
    var expected, shown := ExpectedLedger(db), ShownEntries(db);
    forall p | p in shown ensures p in expected.Items {
      var id :| id in EntryTable(db) && EntryTable(db)[id] == Put(p.0, p.1);
      var order := EnumerationEndingWith(ActiveVms(db).Keys, id);
      LastEntryStays(db, order, id);
      assert Reconciled(db, order) == expected;
    }
    var order := Enumeration(ActiveVms(db).Keys);
    var entries := EntriesInOrder(db, order);
    forall p | p in expected.Items ensures p in shown {
      assert Put(p.0, Collected(entries)[p.0]) in entries;
    }
  }

  lemma EntriesInOrder(db: Db, order: seq<string>) returns (entries: seq<Entry>)
    requires VmsWritten(db) && AlwaysAsExpected(db) && Enumerates(order, ActiveVms(db).Keys)
    ensures Collected(entries) == ExpectedLedger(db)
    ensures forall k :: k in Collected(entries) ==> Put(k, Collected(entries)[k]) in entries
    ensures forall e :: e in entries && e.Put? ==> (e.id, e.allocation) in ShownEntries(db)
  {
    entries := ReconciledEntries(db, order);
    EntriesShown(db, order, entries);
    CollectedMeaning(entries);
    assert Reconciled(db, order) == ExpectedLedger(db);
  }

  /** In every reachable store, reconciling yields the resource columns of the active VMs whatever the row
      order exactly when these columns are what the decoded views ask for. */
  lemma ReconcileExactly(events: seq<Event>)
    ensures AlwaysAsExpected(Run(events)) <==> ShownEntries(Run(events)) == ExpectedLedger(Run(events)).Items
  {
    var db := Run(events);
    RunWritten(events);
    if AlwaysAsExpected(db) {
      ExpectedAsShown(db);
    }
    if ShownEntries(db) == ExpectedLedger(db).Items {
      forall order | Enumerates(order, ActiveVms(db).Keys) ensures Reconciled(db, order) == ExpectedLedger(db) {
        ShownAsExpected(db, order);
      }
    }
  }

  lemma PartOfLedger(part: Ledger, whole: Ledger, good: set<string>)
    requires part == map id | id in whole && id in good :: whole[id]
    ensures part == whole <==> whole.Keys <= good
  {
    assert part.Keys == whole.Keys * good;
    if whole.Keys <= good {
      assert part.Keys == whole.Keys;
    }
  }

  lemma CleanMeaning(db: Db)
    ensures Clean(db) <==> ExpectedLedger(db).Keys <= NumericVms(db)
  {
    if ExpectedLedger(db).Keys <= NumericVms(db) {
      forall id | id in db.vms && Counted(db, id) ensures NumericView(VmView(id, db.vms[id])) {
        assert id in ExpectedLedger(db).Keys;
        assert id in NumericVms(db);
      }
    }
  }

  // ----- why the ids matter

  lemma UpdatedPayload(db: Db, id: string, updates: Object, now: string)
    requires id in db.vms && Plan(db, UpdateVm(id, updates), now).Ok?
    ensures var after := Step(db, Event(UpdateVm(id, updates), now, 1));
      && after.vms.Keys == db.vms.Keys
      && after.vms[id].data == VmView(id, db.vms[id]) + updates
      && forall v :: v in db.vms && v != id ==> after.vms[v] == db.vms[v]
  {
    var row := VmRowFrom(VmView(id, db.vms[id]) + updates, "", "").value;
    OneStatement(db, Event(UpdateVm(id, updates), now, 1), SetVm(id, row));
    assert row.data == VmView(id, db.vms[id]) + updates;
  }

  lemma IdFromPayload(id: string, r: VmRow)
    requires "id" in r.data
    ensures RowId(VmView(id, r)) == PyStr(r.data["id"])
  {
  }

  /** No active VM shows the id any more. */
  lemma IdNotShown(db: Db, id: string, updates: Object, now: string)
    requires OwnIds(db) && id in db.vms && Plan(db, UpdateVm(id, updates), now).Ok?
    requires !Agrees(updates, "id", id)
    ensures var after := Step(db, Event(UpdateVm(id, updates), now, 1));
      forall v :: v in ActiveVms(after) ==> RowId(VmView(v, after.vms[v])) != id
  {
    var after := Step(db, Event(UpdateVm(id, updates), now, 1));
    UpdatedPayload(db, id, updates, now);
    IdFromPayload(id, after.vms[id]);
    forall v | v in ActiveVms(after) ensures RowId(VmView(v, after.vms[v])) != id {
      assert v != id ==> v in ActiveVms(db);
    }
  }

  lemma ShownIds(db: Db, id: string)
    requires forall v :: v in ActiveVms(db) ==> RowId(VmView(v, db.vms[v])) != id
    ensures forall p :: p in ShownEntries(db) ==> p.0 != id
  {
    forall p | p in ShownEntries(db) ensures p.0 != id {
      var v :| v in EntryTable(db) && EntryTable(db)[v] == Put(p.0, p.1);
      assert v in ActiveVms(db);
    }
  }

  lemma NotShownNotCollected(db: Db, order: seq<string>, id: string)
    requires VmsWritten(db) && Enumerates(order, ActiveVms(db).Keys)
    requires forall v :: v in ActiveVms(db) ==> RowId(VmView(v, db.vms[v])) != id
    ensures id !in Reconciled(db, order)
  {
    var entries := ReconciledEntries(db, order);
    EntriesShown(db, order, entries);
    ShownIds(db, id);
    CollectedMeaning(entries);
  }

  /** An update that rewrites an active VM's id makes every reconciliation lose that VM. */
  lemma RewrittenIdLost(db: Db, id: string, updates: Object, now: string, order: seq<string>)
    requires Written(db) && OwnIds(db) && id in db.vms && Plan(db, UpdateVm(id, updates), now).Ok?
    requires !Agrees(updates, "id", id)
    requires var after := Step(db, Event(UpdateVm(id, updates), now, 1));
      id in after.vms && Counted(after, id) && Enumerates(order, ActiveVms(after).Keys)
    ensures var after := Step(db, Event(UpdateVm(id, updates), now, 1));
      id in ExpectedLedger(after) && id !in Reconciled(after, order)
  {
    StepKeepsWritten(db, Event(UpdateVm(id, updates), now, 1));
    IdNotShown(db, id, updates, now);
    NotShownNotCollected(Step(db, Event(UpdateVm(id, updates), now, 1)), order, id);
  }

  // ----- when the store is clean

  predicate NumericRecord(obj: Object) {
    NumericView(obj)
  }

  /** No VM record or update along the way carried a null or bool resource. */
  predicate NumericCall(call: Call) {
    match call
    case CreateVm(obj) => NumericRecord(obj)
    case UpdateVm(_, updates) => NumericRecord(updates)
    case _ => true
  }

  ghost predicate PayloadsNumeric(db: Db) {
    forall id :: id in db.vms ==> NumericRecord(db.vms[id].data)
  }

  lemma StmtKeepsPayloads(db: Db, stmt: Stmt)
    requires PayloadsNumeric(db)
    requires (stmt.InsertVm? || stmt.SetVm?) ==> NumericRecord(stmt.vm.data)
    ensures Apply(db, stmt).Ok? ==> PayloadsNumeric(Apply(db, stmt).value)
  {
  }

  predicate NumericStmts(stmts: seq<Stmt>) {
    forall i :: 0 <= i < |stmts| && (stmts[i].InsertVm? || stmts[i].SetVm?) ==> NumericRecord(stmts[i].vm.data)
  }

  lemma {:induction false} StmtsKeepPayloads(db: Db, stmts: seq<Stmt>)
    requires PayloadsNumeric(db) && NumericStmts(stmts)
    ensures PayloadsNumeric(ApplyAll(db, stmts))
    decreases |stmts|
  {
    if stmts != [] {
      StmtKeepsPayloads(db, stmts[0]);
      if Apply(db, stmts[0]).Ok? {
        StmtsKeepPayloads(Apply(db, stmts[0]).value, stmts[1..]);
      }
    }
  }

  lemma MergedNumeric(id: string, r: VmRow, updates: Object)
    requires NumericRecord(r.data) && NumericRecord(updates)
    ensures NumericRecord(VmView(id, r) + updates)
  {
  }

  lemma PlanNumeric(db: Db, call: Call, now: string)
    requires PayloadsNumeric(db) && NumericCall(call) && Plan(db, call, now).Ok?
    ensures NumericStmts(Plan(db, call, now).value)
  {
    if call.UpdateVm? {
      if call.id in db.vms {
        MergedNumeric(call.id, db.vms[call.id], call.updates);
      }
    } else if call.DeleteSession? {
      AllocationRemovalsHarmless(call.vmOrder);
    }
  }

  lemma StepKeepsPayloads(db: Db, e: Event)
    requires PayloadsNumeric(db) && NumericCall(e.call)
    ensures PayloadsNumeric(Step(db, e))
  {
    var plan := Plan(db, e.call, e.now);
    if plan.Ok? {
      PlanNumeric(db, e.call, e.now);
      StmtsKeepPayloads(db, Take(plan.value, e.commits));
    }
  }

  lemma NumericPayloadsAreClean(db: Db)
    requires PayloadsNumeric(db)
    ensures Clean(db)
  {
  }

  /** Runs whose VM records carry numbers, as the VM manager's do, lead to clean stores. */
  lemma {:induction false} NumericRunsAreClean(events: seq<Event>)
    requires forall i :: 0 <= i < |events| ==> NumericCall(events[i].call)
    ensures PayloadsNumeric(Run(events)) && Clean(Run(events))
  {
    if events != [] {
      NumericRunsAreClean(events[..|events| - 1]);
      StepKeepsPayloads(Run(events[..|events| - 1]), events[|events| - 1]);
    }
    NumericPayloadsAreClean(Run(events));
  }

  /** The record VMManager.create_vm stores. */
  function ManagerRecord(id: string, session: string, image: string, cpu: int, memory: int, disk: int): Object {
    map["id" := Str(id), "session_id" := Str(session), "base_image" := Str(image), "cpu_cores" := Int(cpu),
        "memory_mb" := Int(memory), "disk_gb" := Int(disk), "status" := Str("creating")]
  }

  lemma ManagerRecordNumeric(id: string, session: string, image: string, cpu: int, memory: int, disk: int)
    ensures NumericRecord(ManagerRecord(id, session, image, cpu, memory, disk))
    ensures VmRowFrom(ManagerRecord(id, session, image, cpu, memory, disk), "creating", "").Ok?
      <==> FitsInt64(cpu) && FitsInt64(memory) && FitsInt64(disk)
  {
  }

  lemma FirstVm(id: string, row: VmRow, obj: Object, now: string)
    requires "id" in obj && PyStr(obj["id"]) == id && VmRowFrom(obj, "creating", now) == Ok(row)
    ensures Run([Event(CreateVm(obj), now, 1)]) == EMPTY.(vms := map[id := row])
  {
    var events: seq<Event> := [Event(CreateVm(obj), now, 1)];
    assert events[..0] == [];
    assert Take([InsertVm(id, row)], 1) == [InsertVm(id, row)];
    ApplyOne(EMPTY, InsertVm(id, row));
  }

  lemma BoolRow(id: string, now: string, obj: Object) returns (row: VmRow)
    requires obj == map["id" := Str(id), "status" := Str("running"), "cpu_cores" := Bool(true)]
    ensures VmRowFrom(obj, "creating", now) == Ok(row)
    ensures row.status == "running" && (row.cpu, row.memory, row.disk) == (1, 0, 0)
    ensures RowAllocation(VmView(id, row)) == None
  {
    row := VmRowFrom(obj, "creating", now).value;
    assert VmView(id, row)["cpu_cores"] == Bool(true);
  }

  /** A record with "cpu_cores": true is stored with one core but dropped by reconciliation. */
  lemma BoolResourceDropped(id: string, now: string, obj: Object)
    requires id != ""
    requires obj == map["id" := Str(id), "status" := Str("running"), "cpu_cores" := Bool(true)]
    ensures var db := Run([Event(CreateVm(obj), now, 1)]);
      && id in db.vms && db.vms[id].cpu == 1
      && ExpectedLedger(db) == map[id := Allocation(1, 0, 0)]
      && Rebuilt([VmView(id, db.vms[id])]) == map[]
  {
    var row := BoolRow(id, now, obj);
    FirstVm(id, row, obj, now);
    var rows: seq<Object> := [VmView(id, row)];
    assert rows[..0] == [] && rows[..1] == rows;
    RebuiltNext(rows, 0);
  }
}
