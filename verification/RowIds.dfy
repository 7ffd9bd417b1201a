/** The ids that AUTOINCREMENT gives to proxies, shared folders, allocations and network rules. */
module RowIds {
  import opened Values
  import opened Store

  /** The id of each row, by its key, and the id of the next one. */
  datatype Numbering<K(==)> = Numbering(ids: map<K, int>, next: int)

  function ProxyIds(db: Db): Numbering<string> {
    Numbering(map s | s in db.proxies.rows :: db.proxies.rows[s].id, db.proxies.next)
  }

  function FolderIds(db: Db): Numbering<string> {
    Numbering(map s | s in db.folders.rows :: db.folders.rows[s].id, db.folders.next)
  }

  function AllocationIds(db: Db): Numbering<string> {
    Numbering(map v | v in db.allocations.rows :: db.allocations.rows[v].id, db.allocations.next)
  }

  function RuleIds(db: Db): Numbering<int> {
    Numbering(map i | i in db.rules.rows :: i, db.rules.next)
  }

  /** Ids start at 1, stay below the next one, and no two rows share one. */
  ghost predicate Distinct<K(!new)>(n: Numbering<K>) {
    && 1 <= n.next
    && (forall k :: k in n.ids ==> 1 <= n.ids[k] < n.next)
    && (forall k, l :: k in n.ids && l in n.ids && n.ids[k] == n.ids[l] ==> k == l)
  }

  /** Every later row either had its id before or got one that was still unused. */
  ghost predicate Extends<K(!new)>(before: Numbering<K>, after: Numbering<K>) {
    && before.next <= after.next
    && forall k :: k in after.ids ==> (k in before.ids && before.ids[k] == after.ids[k]) || before.next <= after.ids[k]
  }

  ghost predicate Numbered(db: Db) {
    Distinct(ProxyIds(db)) && Distinct(FolderIds(db)) && Distinct(AllocationIds(db)) && Distinct(RuleIds(db))
  }

  ghost predicate NumbersExtend(before: Db, after: Db) {
    && Extends(ProxyIds(before), ProxyIds(after)) && Extends(FolderIds(before), FolderIds(after))
    && Extends(AllocationIds(before), AllocationIds(after)) && Extends(RuleIds(before), RuleIds(after))
  }

  // ----- one statement

  function Added<K>(n: Numbering<K>, k: K): Numbering<K> {
    Numbering(n.ids[k := n.next], n.next + 1)
  }

  function Removed<K>(n: Numbering<K>, keys: set<K>): Numbering<K> {
    Numbering(n.ids - keys, n.next)
  }

  lemma AddedKeeps<K(!new)>(n: Numbering<K>, k: K)
    requires Distinct(n) && k !in n.ids
    ensures Distinct(Added(n, k)) && Extends(n, Added(n, k))
  {
  }

  lemma RemovedKeeps<K(!new)>(n: Numbering<K>, keys: set<K>)
    requires Distinct(n)
    ensures Distinct(Removed(n, keys)) && Extends(n, Removed(n, keys))
  {
  }

  lemma ProxyStep(db: Db, stmt: Stmt)
    requires Apply(db, stmt).Ok?
    ensures var n, after := ProxyIds(db), ProxyIds(Apply(db, stmt).value);
      if stmt.InsertProxy? then stmt.session !in n.ids && after == Added(n, stmt.session)
      else if stmt.RemoveProxyOf? then after == Removed(n, {stmt.session})
      else after == n
  {
    var n, after := ProxyIds(db), ProxyIds(Apply(db, stmt).value);
    if stmt.InsertProxy? {
      assert after.ids == n.ids[stmt.session := n.next];
    } else if stmt.RemoveProxyOf? {
      assert after.ids == n.ids - {stmt.session};
    } else if stmt.SetProxy? {
      assert after.ids == n.ids;
    } else {
      assert Apply(db, stmt).value.proxies == db.proxies;
    }
  }

  lemma ProxyNumbered(db: Db, stmt: Stmt)
    requires Distinct(ProxyIds(db)) && Apply(db, stmt).Ok?
    ensures Distinct(ProxyIds(Apply(db, stmt).value))
    ensures Extends(ProxyIds(db), ProxyIds(Apply(db, stmt).value))
  {
    ProxyStep(db, stmt);
    if stmt.InsertProxy? {
      AddedKeeps(ProxyIds(db), stmt.session);
    } else if stmt.RemoveProxyOf? {
      RemovedKeeps(ProxyIds(db), {stmt.session});
    }
  }

  lemma FolderStep(db: Db, stmt: Stmt)
    requires Apply(db, stmt).Ok?
    ensures var n, after := FolderIds(db), FolderIds(Apply(db, stmt).value);
      if stmt.InsertFolder? then stmt.session !in n.ids && after == Added(n, stmt.session)
      else if stmt.RemoveFolderOf? then after == Removed(n, {stmt.session})
      else after == n
  {
    var n, after := FolderIds(db), FolderIds(Apply(db, stmt).value);
    if stmt.InsertFolder? {
      assert after.ids == n.ids[stmt.session := n.next];
    } else if stmt.RemoveFolderOf? {
      assert after.ids == n.ids - {stmt.session};
    } else {
      assert Apply(db, stmt).value.folders == db.folders;
    }
  }

  lemma FolderNumbered(db: Db, stmt: Stmt)
    requires Distinct(FolderIds(db)) && Apply(db, stmt).Ok?
    ensures Distinct(FolderIds(Apply(db, stmt).value))
    ensures Extends(FolderIds(db), FolderIds(Apply(db, stmt).value))
  {
    FolderStep(db, stmt);
    if stmt.InsertFolder? {
      AddedKeeps(FolderIds(db), stmt.session);
    } else if stmt.RemoveFolderOf? {
      RemovedKeeps(FolderIds(db), {stmt.session});
    }
  }

  lemma AllocationStep(db: Db, stmt: Stmt)
    requires Apply(db, stmt).Ok?
    ensures var n, after := AllocationIds(db), AllocationIds(Apply(db, stmt).value);
      if stmt.InsertAllocation? then stmt.vmId !in n.ids && after == Added(n, stmt.vmId)
      else if stmt.RemoveAllocationOf? then after == Removed(n, {stmt.vmId})
      else after == n
  {
    var n, after := AllocationIds(db), AllocationIds(Apply(db, stmt).value);
    if stmt.InsertAllocation? {
      assert after.ids == n.ids[stmt.vmId := n.next];
    } else if stmt.RemoveAllocationOf? {
      assert after.ids == n.ids - {stmt.vmId};
    } else {
      assert Apply(db, stmt).value.allocations == db.allocations;
    }
  }

  lemma AllocationNumbered(db: Db, stmt: Stmt)
    requires Distinct(AllocationIds(db)) && Apply(db, stmt).Ok?
    ensures Distinct(AllocationIds(Apply(db, stmt).value))
    ensures Extends(AllocationIds(db), AllocationIds(Apply(db, stmt).value))
  {
    AllocationStep(db, stmt);
    if stmt.InsertAllocation? {
      AddedKeeps(AllocationIds(db), stmt.vmId);
    } else if stmt.RemoveAllocationOf? {
      RemovedKeeps(AllocationIds(db), {stmt.vmId});
    }
  }

  /** The ids of a session's rules. */
  function RulesIn(db: Db, session: string): set<int> {
    set i | i in db.rules.rows && db.rules.rows[i].sessionId == session
  }

  lemma RuleStep(db: Db, stmt: Stmt)
    requires Apply(db, stmt).Ok?
    ensures var n, after := RuleIds(db), RuleIds(Apply(db, stmt).value);
      if stmt.InsertRule? then after == Added(n, n.next)
      else if stmt.RemoveRulesOf? then after == Removed(n, RulesIn(db, stmt.session))
      else after == n
  {
    var n, after := RuleIds(db), RuleIds(Apply(db, stmt).value);
    if stmt.InsertRule? {
      assert after.ids == n.ids[n.next := n.next];
    } else if stmt.RemoveRulesOf? {
      assert after.ids == n.ids - RulesIn(db, stmt.session);
    } else {
      assert after.ids == n.ids;
    }
  }

  lemma RuleNumbered(db: Db, stmt: Stmt)
    requires Distinct(RuleIds(db)) && Apply(db, stmt).Ok?
    ensures Distinct(RuleIds(Apply(db, stmt).value)) && Extends(RuleIds(db), RuleIds(Apply(db, stmt).value))
  {
    RuleStep(db, stmt);
    if stmt.InsertRule? {
      AddedKeeps(RuleIds(db), db.rules.next);
    } else if stmt.RemoveRulesOf? {
      RemovedKeeps(RuleIds(db), RulesIn(db, stmt.session));
    }
  }

  // ----- runs

  lemma ExtendsTransitive<K(!new)>(a: Numbering<K>, b: Numbering<K>, c: Numbering<K>)
    requires Extends(a, b) && Extends(b, c)
    ensures Extends(a, c)
  {
  }

  lemma NumbersExtendTransitive(a: Db, b: Db, c: Db)
    requires NumbersExtend(a, b) && NumbersExtend(b, c)
    ensures NumbersExtend(a, c)
  {
    ExtendsTransitive(ProxyIds(a), ProxyIds(b), ProxyIds(c));
    ExtendsTransitive(FolderIds(a), FolderIds(b), FolderIds(c));
    ExtendsTransitive(AllocationIds(a), AllocationIds(b), AllocationIds(c));
    ExtendsTransitive(RuleIds(a), RuleIds(b), RuleIds(c));
  }

  lemma {:induction false} StmtsNumbered(db: Db, stmts: seq<Stmt>)
    requires Numbered(db)
    ensures Numbered(ApplyAll(db, stmts)) && NumbersExtend(db, ApplyAll(db, stmts))
    decreases |stmts|
  {
    if stmts != [] && Apply(db, stmts[0]).Ok? {
      var after := Apply(db, stmts[0]).value;
      ProxyNumbered(db, stmts[0]);
      FolderNumbered(db, stmts[0]);
      AllocationNumbered(db, stmts[0]);
      RuleNumbered(db, stmts[0]);
      StmtsNumbered(after, stmts[1..]);
      NumbersExtendTransitive(db, after, ApplyAll(db, stmts));
    }
  }

  lemma StepNumbered(db: Db, e: Event)
    requires Numbered(db)
    ensures Numbered(Step(db, e)) && NumbersExtend(db, Step(db, e))
  {
    var plan := Plan(db, e.call, e.now);
    if plan.Ok? {
      StmtsNumbered(db, Take(plan.value, e.commits));
    }
  }

  /** In every run, crashes included, ids are below the next one and no two rows of a table share one. */
  lemma {:induction false} RunNumbered(events: seq<Event>)
    ensures Numbered(Run(events))
  {
    if events != [] {
      RunNumbered(events[..|events| - 1]);
      StepNumbered(Run(events[..|events| - 1]), events[|events| - 1]);
    }
  }

  lemma LaterExtends(start: Db, before: Db, e: Event)
    requires Numbered(before) && NumbersExtend(start, before)
    ensures NumbersExtend(start, Step(before, e))
  {
    StepNumbered(before, e);
    NumbersExtendTransitive(start, before, Step(before, e));
  }

  lemma {:induction false} RunExtends(events: seq<Event>, more: seq<Event>)
    ensures NumbersExtend(Run(events), Run(events + more))
  {
    if more == [] {
      assert events + more == events;
    } else {
      var front, all := more[..|more| - 1], events + more;
      RunExtends(events, front);
      assert all[..|all| - 1] == events + front && all[|all| - 1] == more[|more| - 1];
      RunNumbered(events + front);
      LaterExtends(Run(events), Run(events + front), more[|more| - 1]);
    }
  }

  /** after has one more rule, whose id was unused, and every other rule as it was. */
  predicate RuleAdded(before: Table<int, RuleRow>, after: Table<int, RuleRow>, id: int) {
    id !in before.rows && id in after.rows && after.rows - {id} == before.rows
  }

  /** A new rule gets an id of its own and leaves every other rule as it was. */
  lemma NewRuleIsFresh(db: Db, obj: Object, now: string)
    requires Numbered(db) && RuleRowFrom(obj, now).Ok?
    ensures var after := Completed(db, CreateNetworkRule(obj), now);
      RuleAdded(db.rules, after.rules, db.rules.next)
  {
    assert db.rules.next !in RuleIds(db).ids;
    ApplyOne(db, InsertRule(RuleRowFrom(obj, now).value));
  }

  /** An id that a row of a no longer has in b belongs to no row of c. */
  ghost predicate NeverReused<K(!new)>(a: Numbering<K>, b: Numbering<K>, c: Numbering<K>) {
    forall k, l :: k in a.ids && !(k in b.ids && b.ids[k] == a.ids[k]) && l in c.ids ==> c.ids[l] != a.ids[k]
  }

  lemma ExtensionNeverReuses<K(!new)>(a: Numbering<K>, b: Numbering<K>, c: Numbering<K>)
    requires Distinct(a) && Extends(a, b) && Extends(b, c)
    ensures NeverReused(a, b, c)
  {
  }

  /** Once a row is gone its id never comes back. */
  lemma IdsNeverReused(events: seq<Event>, mid: seq<Event>, more: seq<Event>)
    ensures var a, b, c := Run(events), Run(events + mid), Run(events + mid + more);
      && NeverReused(ProxyIds(a), ProxyIds(b), ProxyIds(c))
      && NeverReused(FolderIds(a), FolderIds(b), FolderIds(c))
      && NeverReused(AllocationIds(a), AllocationIds(b), AllocationIds(c))
      && NeverReused(RuleIds(a), RuleIds(b), RuleIds(c))
  {
    var a, b, c := Run(events), Run(events + mid), Run(events + mid + more);
    RunNumbered(events);
    RunExtends(events, mid);
    RunExtends(events + mid, more);
    ExtensionNeverReuses(ProxyIds(a), ProxyIds(b), ProxyIds(c));
    ExtensionNeverReuses(FolderIds(a), FolderIds(b), FolderIds(c));
    ExtensionNeverReuses(AllocationIds(a), AllocationIds(b), AllocationIds(c));
    ExtensionNeverReuses(RuleIds(a), RuleIds(b), RuleIds(c));
  }
}
