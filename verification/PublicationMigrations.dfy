/**
 Publication migrations do what their snapshots claim: every statement is accepted, and
 the database is left publishing exactly the tables and columns of the snapshot.
 */
module PublicationMigrations {
  import opened Wrappers
  import opened Publication
  import opened PublicationMemberships

  /** The membership wanted after a migration, from the two snapshots alone. */
  function Wanted(previous: Option<Snapshot>, current: Snapshot, options: Options): Membership {
    if previous.Some? && previous.value.name == current.name
    then WantedSameName(MembershipOf(previous.value.tables), MembershipOf(current.tables), options)
    else MembershipOf(current.tables)
  }

  function WantedSameName(p: Membership, c: Membership, options: Options): Membership {
    if options.dropRemovedTables then c else p + c
  }

  /** The two snapshots list these memberships under one name. */
  predicate Between(previous: Snapshot, current: Snapshot, p: Membership, c: Membership) {
    && previous.name == current.name && current.tables != []
    && Lists(previous.tables, p) && Lists(current.tables, c)
  }

  lemma Overlay(p: Membership, c: Membership)
    ensures c + (p - c.Keys) == p + c
  {
  }

  /** The effective snapshot lists the wanted tables, each once. */
  lemma EffectiveLists(previous: Snapshot, current: Snapshot, options: Options, p: Membership, c: Membership)
    requires Between(previous, current, p, c)
    ensures Lists(EffectiveCurrent(previous, current, options).tables, WantedSameName(p, c, options))
    ensures EffectiveCurrent(previous, current, options).tables != []
  {
    var removed := Removed(previous, current);
    SortKeepsTables(options.less, current.tables + (if options.dropRemovedTables then [] else removed));
    if options.dropRemovedTables {
      assert current.tables + [] == current.tables;
      SortLists(options.less, current.tables, c);
    } else {
      ListsIds(current.tables, c);
      AbsentLists(previous.tables, current.tables, p);
      ListsJoin(current.tables, removed, c, p - c.Keys);
      Overlay(p, c);
      SortLists(options.less, current.tables + removed, p + c);
    }
  }

  // --------------------------------------------------------------------- running

  lemma RunOne(db: Publications, statement: Statement)
    requires Accepts(db, statement.command)
    ensures Run(db, [statement]) == Some(Executed(db, statement.command))
  {
    assert [statement][1..] == [];
  }

  lemma RunTwo(db: Publications, first: Statement, second: Statement)
    requires Accepts(db, first.command) && Accepts(Executed(db, first.command), second.command)
    ensures Run(db, [first, second]) == Some(Executed(Executed(db, first.command), second.command))
  {
    assert [first, second][1..] == [second];
    RunOne(Executed(db, first.command), second);
  }

  /** The publication of the snapshot's name publishes what the snapshot lists. */
  predicate Holds(db: Publications, snapshot: Snapshot) {
    snapshot.name in db && db[snapshot.name] == MembershipOf(snapshot.tables)
  }

  /**
   Both halves of the migration are accepted; they leave `m` under the name and all else
   alone, and `m` is what the returned snapshot lists.
   */
  predicate Reaches(db: Publications, plan: Migration, name: string, m: Membership) {
    && plan.snapshot.name == name && plan.snapshot.tables != [] && Lists(plan.snapshot.tables, m)
    && Run(db, plan.before).Some?
    && Run(Run(db, plan.before).value, plan.after) == Some(db[name := m])
  }

  lemma SetRuns(db: Publications, mid: Publications, name: string, tables: seq<Table>, destructive: bool, m: Membership)
    requires name in db && name in mid && mid == db[name := mid[name]] && tables != [] && Lists(tables, m)
    ensures Run(mid, [Statement(SetTables(name, tables), destructive)]) == Some(db[name := m])
  {
    ListsMembership(tables, m);
    RunOne(mid, Statement(SetTables(name, tables), destructive));
    assert mid[name := m] == db[name := m];
  }

  /** The tables to take off are distinct and were published. */
  lemma AlterTablesPublished(fold: string -> string, tables: seq<Table>, alterations: seq<Alteration>)
    ensures var altered := AlterTables(fold, tables, alterations);
            DistinctIds(altered) && forall t :: t in altered ==> t in tables
  {
    var keys := AffectedKeys(fold, tables, alterations);
    var altered := AlterTables(fold, tables, alterations);
    assert forall i :: 0 <= i < |keys| ==> Folded(fold, altered[i].id) == keys[i] && altered[i] in tables;
  }

  lemma DropAlteredRuns(db: Publications, previous: Snapshot, options: Options, p: Membership)
    requires Lists(previous.tables, p) && previous.name in db && db[previous.name] == p
    requires TypeAlterTables(previous, options) != []
    ensures var altered := TypeAlterTables(previous, options);
            Run(db, [Statement(DropTables(previous.name, altered), false)]) == Some(db[previous.name := p - Ids(altered)])
  {
    var altered := TypeAlterTables(previous, options);
    AlterTablesPublished(options.fold, previous.tables, options.alterations);
    forall i | 0 <= i < |altered| ensures altered[i].id in p {
      assert altered[i] in previous.tables;
    }
    RunOne(db, Statement(DropTables(previous.name, altered), false));
  }

  lemma TypeAlterReaches(db: Publications, previous: Snapshot, current: Snapshot, options: Options, p: Membership, c: Membership)
    requires Between(previous, current, p, c) && current.name in db && db[current.name] == p
    requires TypeAlterTables(previous, options) != []
    ensures Reaches(db, TypeAlterPlan(previous, current, options), current.name, WantedSameName(p, c, options))
  {
    var tables := EffectiveCurrent(previous, current, options).tables;
    var mid := db[current.name := p - Ids(TypeAlterTables(previous, options))];
    EffectiveLists(previous, current, options, p, c);
    DropAlteredRuns(db, previous, options, p);
    SetRuns(db, mid, current.name, tables, Dropped(previous, current, options) != [], WantedSameName(p, c, options));
  }

  lemma ChangedColumnsReaches(db: Publications, previous: Snapshot, current: Snapshot, options: Options, p: Membership, c: Membership)
    requires Between(previous, current, p, c) && current.name in db && db[current.name] == p
    ensures Reaches(db, ChangedColumnsPlan(previous, current, options), current.name, WantedSameName(p, c, options))
  {
    var plan := ChangedColumnsPlan(previous, current, options);
    EffectiveLists(previous, current, options, p, c);
    SetRuns(db, db, current.name, plan.snapshot.tables, Dropped(previous, current, options) != [], WantedSameName(p, c, options));
  }

  // ------------------------------------------------------------------- table sets

  /** Tables in both snapshots have the same columns. */
  lemma ColumnsAgree(previous: Snapshot, current: Snapshot, p: Membership, c: Membership)
    requires Lists(previous.tables, p) && Lists(current.tables, c) && !ChangedColumns(previous, current)
    ensures forall id :: id in p && id in c ==> p[id] == c[id]
  {
    forall id | id in p && id in c ensures p[id] == c[id] {
      var i :| 0 <= i < |previous.tables| && previous.tables[i].id == id;
      var j :| 0 <= j < |current.tables| && current.tables[j].id == id;
      assert !ColumnsChange(previous, current.tables[j]);
    }
  }

  lemma GrownMembership(p: Membership, c: Membership)
    requires forall id :: id in p && id in c ==> p[id] == c[id]
    ensures p + (c - p.Keys) == p + c && (p + c) - (p.Keys - c.Keys) == c
  {
  }

  /** The statements add tables that are not published and drop tables that are. */
  predicate Takes(p: Membership, added: seq<Table>, dropped: seq<Table>) {
    && DistinctIds(added) && DistinctIds(dropped)
    && (forall i :: 0 <= i < |added| ==> added[i].id !in p)
    && (forall i :: 0 <= i < |dropped| ==> dropped[i].id in p)
  }

  lemma AddAndDropRuns(db: Publications, name: string, added: seq<Table>, dropped: seq<Table>)
    requires name in db && Takes(db[name], added, dropped)
    ensures Run(db, AddAndDrop(name, added, dropped)) == Some(db[name := (db[name] + MembershipOf(added)) - Ids(dropped)])
  {
    var (add, drop) := (Statement(AddTables(name, added), false), Statement(DropTables(name, dropped), true));
    var grown := db[name] + MembershipOf(added);
    var m := grown - Ids(dropped);
    if added == [] && dropped == [] {
      assert m == db[name] && db[name := m] == db;
    } else if dropped == [] {
      assert m == grown;
      RunOne(db, add);
    } else if added == [] {
      assert grown == db[name];
      RunOne(db, drop);
    } else {
      RunTwo(db, add, drop);
      assert db[name := grown][name := m] == db[name := m];
    }
  }

  /**
   Adds the new tables and drops the removed ones if asked to. Wherever the new tables are
   unpublished and the dropped ones published, the database accepts the statements and
   then publishes the new tables as well and the dropped ones no longer.
   */
  method TableSetStatements(name: string, added: seq<Table>, removed: seq<Table>, dropRemovedTables: bool)
    returns (statements: seq<Statement>)
    ensures statements == AddAndDrop(name, added, if dropRemovedTables then removed else [])
    ensures added != [] ==> statements != [] && statements[0] == Statement(AddTables(name, added), false)
    ensures forall i :: 0 <= i < |statements| ==> (statements[i].destructive <==> statements[i].command.DropTables?)
    ensures forall db: Publications :: name in db && Takes(db[name], added, if dropRemovedTables then removed else []) ==>
              Run(db, statements)
              == Some(db[name := (db[name] + MembershipOf(added)) - Ids(if dropRemovedTables then removed else [])])
  {
    statements := [];
    if |added| > 0 {
      statements := statements + [Statement(AddTables(name, added), false)];
    }
    if dropRemovedTables && |removed| > 0 {
      statements := statements + [Statement(DropTables(name, removed), true)];
    }
    ghost var dropped := if dropRemovedTables then removed else [];
    forall db: Publications | name in db && Takes(db[name], added, dropped)
      ensures Run(db, statements) == Some(db[name := (db[name] + MembershipOf(added)) - Ids(dropped)])
    {
      AddAndDropRuns(db, name, added, dropped);
    }
  }

  lemma TableSetTakes(previous: Snapshot, current: Snapshot, options: Options, p: Membership, c: Membership)
    requires Lists(previous.tables, p) && Lists(current.tables, c)
    ensures Lists(Added(previous, current), c - p.Keys)
    ensures Ids(Dropped(previous, current, options)) == if options.dropRemovedTables then p.Keys - c.Keys else {}
    ensures Takes(p, Added(previous, current), Dropped(previous, current, options))
  {
    var (added, removed) := (Added(previous, current), Removed(previous, current));
    ListsIds(previous.tables, p);
    ListsIds(current.tables, c);
    AbsentLists(current.tables, previous.tables, c);
    AbsentLists(previous.tables, current.tables, p);
    ListsIds(removed, p - c.Keys);
  }

  lemma TableSetMembership(previous: Snapshot, current: Snapshot, options: Options, p: Membership, c: Membership)
    requires Lists(previous.tables, p) && Lists(current.tables, c) && !ChangedColumns(previous, current)
    ensures (p + MembershipOf(Added(previous, current))) - Ids(Dropped(previous, current, options)) == WantedSameName(p, c, options)
  {
    TableSetTakes(previous, current, options, p, c);
    ListsMembership(Added(previous, current), c - p.Keys);
    ColumnsAgree(previous, current, p, c);
    GrownMembership(p, c);
    assert (p + c) - {} == p + c;
  }

  lemma TableSetReaches(db: Publications, previous: Snapshot, current: Snapshot, options: Options, p: Membership, c: Membership)
    requires Between(previous, current, p, c) && current.name in db && db[current.name] == p
    requires !ChangedColumns(previous, current)
    ensures Reaches(db, TableSetPlan(previous, current, options), current.name, WantedSameName(p, c, options))
  {
    EffectiveLists(previous, current, options, p, c);
    TableSetTakes(previous, current, options, p, c);
    TableSetMembership(previous, current, options, p, c);
    AddAndDropRuns(db, current.name, Added(previous, current), Dropped(previous, current, options));
  }

  // --------------------------------------------------------------- main results

  /** The other publications: all but the one described by the snapshot. */
  function Others(db: Publications, previous: Option<Snapshot>): Publications {
    if previous.Some? then db - {previous.value.name} else db
  }

  /**
   Every statement of the migration is accepted; afterwards the publication of the returned
   snapshot publishes exactly `m`, which is what the snapshot lists; the others are untouched.
   */
  predicate Migrates(db: Publications, previous: Option<Snapshot>, plan: Migration, m: Membership) {
    && WellFormed(plan.snapshot) && MembershipOf(plan.snapshot.tables) == m
    && Run(db, plan.before).Some?
    && Run(Run(db, plan.before).value, plan.after) == Some(Others(db, previous)[plan.snapshot.name := m])
  }

  lemma ReachesMigrates(db: Publications, previous: Snapshot, plan: Migration, m: Membership)
    requires Reaches(db, plan, previous.name, m)
    ensures Migrates(db, Some(previous), plan, m) && plan.snapshot.name == previous.name
  {
    ListsMembership(plan.snapshot.tables, m);
    assert (db - {previous.name})[previous.name := m] == db[previous.name := m];
  }

  lemma CreateMigrates(db: Publications, current: Snapshot, options: Options)
    requires WellFormed(current) && current.name !in db
    ensures Migrates(db, None, Plan(None, current, options), MembershipOf(current.tables))
  {
    RunOne(db, Plan(None, current, options).after[0]);
  }

  lemma RenameMigrates(db: Publications, previous: Snapshot, current: Snapshot, options: Options)
    requires WellFormed(current) && previous.name != current.name && current.name !in db
    ensures Migrates(db, Some(previous), Plan(Some(previous), current, options), MembershipOf(current.tables))
  {
    var plan := Plan(Some(previous), current, options);
    RunTwo(db, plan.after[0], plan.after[1]);
  }

  lemma SameNameReaches(db: Publications, previous: Snapshot, current: Snapshot, options: Options, p: Membership, c: Membership)
    requires Between(previous, current, p, c) && current.name in db && db[current.name] == p
    ensures Reaches(db, PlanSameName(previous, current, options), current.name, WantedSameName(p, c, options))
  {
    if TypeAlterTables(previous, options) != [] {
      TypeAlterReaches(db, previous, current, options, p, c);
    } else if ChangedColumns(previous, current) {
      ChangedColumnsReaches(db, previous, current, options, p, c);
    } else {
      TableSetReaches(db, previous, current, options, p, c);
    }
  }

  lemma SameNameMigrates(db: Publications, previous: Snapshot, current: Snapshot, options: Options)
    requires WellFormed(previous) && WellFormed(current) && previous.name == current.name && Holds(db, previous)
    ensures var plan := PlanSameName(previous, current, options);
            plan.snapshot.name == current.name && Migrates(db, Some(previous), plan, Wanted(Some(previous), current, options))
  {
    var (p, c) := (MembershipOf(previous.tables), MembershipOf(current.tables));
    SelfLists(previous.tables);
    SelfLists(current.tables);
    SameNameReaches(db, previous, current, options, p, c);
    ReachesMigrates(db, previous, PlanSameName(previous, current, options), WantedSameName(p, c, options));
  }

  /** Planner correctness: from a database that publishes the previous snapshot, the plan migrates to what was wanted. */
  lemma PlanIsCorrect(db: Publications, previous: Option<Snapshot>, current: Snapshot, options: Options)
    requires WellFormed(current)
    requires previous.Some? ==> WellFormed(previous.value) && Holds(db, previous.value)
    requires previous.None? || previous.value.name != current.name ==> current.name !in db
    ensures Plan(previous, current, options).snapshot.name == current.name
    ensures Migrates(db, previous, Plan(previous, current, options), Wanted(previous, current, options))
  {
    if previous.None? {
      CreateMigrates(db, current, options);
    } else if previous.value.name != current.name {
      RenameMigrates(db, previous.value, current, options);
    } else {
      SameNameMigrates(db, previous.value, current, options);
    }
  }

  // ------------------------------------------------------------------ the planner

  /** The planner itself, with its loops over alterations and its list of statements. */
  method GenerateStatements(previous: Option<Snapshot>, current: Snapshot, options: Options) returns (plan: Migration)
    ensures plan == Plan(previous, current, options)
  {
    var create := Statement(CreatePublication(current.name, current.tables), false);
    if previous.None? {
      return Migration([], [create], current);
    }
    var p := previous.value;
    if p.name != current.name {
      return Migration([], [Statement(DropPublicationIfExists(p.name), true), create], current);
    }
    var altered := PublishedColumnTypeAlterTables(options.fold, p.tables, options.alterations);
    if |altered| > 0 {
      return TypeAlterPlan(p, current, options);
    }
    if ChangedColumns(p, current) {
      return ChangedColumnsPlan(p, current, options);
    }
    var statements := TableSetStatements(current.name, Added(p, current), Removed(p, current), options.dropRemovedTables);
    return Migration([], statements, EffectiveCurrent(p, current, options));
  }
}
