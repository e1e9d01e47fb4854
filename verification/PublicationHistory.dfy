/**
 Publication migrations over time: chains of migrations, planning again without a change,
 and what is published while a migration's own statements run.
 */
module PublicationHistory {
  import opened Wrappers
  import opened Publication
  import opened PublicationMemberships
  import opened PublicationMigrations

  /** One generated migration: the snapshot wanted and the planner's other inputs. */
  datatype Request = Request(current: Snapshot, options: Options)

  /** The snapshot stored after a chain of migrations. */
  function Stored(requests: seq<Request>): Option<Snapshot> {
    if requests == [] then None
    else
      var last := requests[|requests| - 1];
      Some(Plan(Stored(requests[..|requests| - 1]), last.current, last.options).snapshot)
  }

  function RunBoth(db: Option<Publications>, migration: Migration): Option<Publications> {
    if db.None? then None
    else
      var between := Run(db.value, migration.before);
      if between.None? then None else Run(between.value, migration.after)
  }

  /** The database after running all migrations of a chain in order. */
  function Migrated(db: Publications, requests: seq<Request>): Option<Publications> {
    if requests == [] then Some(db)
    else
      var (earlier, last) := (requests[..|requests| - 1], requests[|requests| - 1]);
      RunBoth(Migrated(db, earlier), Plan(Stored(earlier), last.current, last.options))
  }

  /** A well formed snapshot under a name that no foreign publication uses. */
  predicate Wellposed(foreign: Publications, request: Request) {
    WellFormed(request.current) && request.current.name !in foreign
  }

  /** What a database with foreign publications holds when the snapshot is the stored one. */
  function Beside(foreign: Publications, stored: Option<Snapshot>): Publications {
    if stored.None? then foreign else foreign[stored.value.name := MembershipOf(stored.value.tables)]
  }

  /**
   However often the publication is renamed, altered, grown and shrunk: every statement of
   the chain is accepted, and the database ends with the foreign publications untouched and
   the stored snapshot published exactly.
   */
  lemma {:induction false} ChainIsCorrect(foreign: Publications, requests: seq<Request>)
    requires forall i :: 0 <= i < |requests| ==> Wellposed(foreign, requests[i])
    ensures Migrated(foreign, requests) == Some(Beside(foreign, Stored(requests)))
    ensures Stored(requests).Some? ==> WellFormed(Stored(requests).value) && Stored(requests).value.name !in foreign
  {
    if requests != [] {
      var (earlier, last) := (requests[..|requests| - 1], requests[|requests| - 1]);
      ChainIsCorrect(foreign, earlier);
      ChainStep(foreign, Stored(earlier), last);
    }
  }

  lemma ChainStep(foreign: Publications, stored: Option<Snapshot>, request: Request)
    requires Wellposed(foreign, request)
    requires stored.Some? ==> WellFormed(stored.value) && stored.value.name !in foreign
    ensures var plan := Plan(stored, request.current, request.options);
            && RunBoth(Some(Beside(foreign, stored)), plan) == Some(Beside(foreign, Some(plan.snapshot)))
            && WellFormed(plan.snapshot) && plan.snapshot.name !in foreign
  {
    var db := Beside(foreign, stored);
    assert Others(db, stored) == foreign;
    PlanIsCorrect(db, stored, request.current, request.options);
  }

  // --------------------------------------------------------------- planning again

  lemma SameColumnsAgain(snapshot: Snapshot, current: Snapshot, s: Membership, c: Membership)
    requires Lists(snapshot.tables, s) && Lists(current.tables, c) && s + c == s
    ensures !ChangedColumns(snapshot, current)
  {
    forall i, j | 0 <= i < |current.tables| && 0 <= j < |snapshot.tables| && snapshot.tables[j].id == current.tables[i].id
      ensures snapshot.tables[j].columns == current.tables[i].columns
    {
      var id := current.tables[i].id;
      assert s[id] == (s + c)[id] == c[id];
    }
    forall i | 0 <= i < |current.tables| ensures !ColumnsChange(snapshot, current.tables[i]) {}
  }

  lemma NothingNew(tables: seq<Table>, others: seq<Table>, a: Membership, b: Membership)
    requires Lists(tables, a) && Lists(others, b) && a.Keys <= b.Keys
    ensures Absent(tables, others) == []
  {
    ListsIds(others, b);
    forall i | 0 <= i < |tables| ensures HasId(others, tables[i].id) {
      assert tables[i].id in a.Keys;
    }
    NoneAbsent(tables, others);
  }

  lemma AgainEmitsNothing(snapshot: Snapshot, current: Snapshot, options: Options, s: Membership, c: Membership)
    requires Between(snapshot, current, s, c) && options.alterations == []
    requires s + c == s && (options.dropRemovedTables ==> s == c)
    ensures var again := PlanSameName(snapshot, current, options);
            again.before == [] && again.after == [] && again.snapshot == EffectiveCurrent(snapshot, current, options)
  {
    SameColumnsAgain(snapshot, current, s, c);
    assert c.Keys <= (s + c).Keys;
    NothingNew(current.tables, snapshot.tables, c, s);
    if options.dropRemovedTables {
      NothingNew(snapshot.tables, current.tables, s, c);
    }
    assert TypeAlterTables(snapshot, options) == [];
  }

  lemma AgainKeepsTables(snapshot: Snapshot, current: Snapshot, options: Options, s: Membership, c: Membership)
    requires Between(snapshot, current, s, c) && s + c == s && (options.dropRemovedTables ==> s == c)
    ensures MembershipOf(EffectiveCurrent(snapshot, current, options).tables) == s
  {
    EffectiveLists(snapshot, current, options, s, c);
    ListsMembership(EffectiveCurrent(snapshot, current, options).tables, s);
  }

  /** What a plan leaves already holds the wanted tables. */
  lemma PlanAbsorbs(previous: Option<Snapshot>, current: Snapshot, options: Options, s: Membership)
    requires s == Wanted(previous, current, options)
    ensures s + MembershipOf(current.tables) == s
    ensures options.dropRemovedTables ==> s == MembershipOf(current.tables)
  {
  }

  /** Planning again for the same tables, with no column type changed, emits no statement at all. */
  lemma PlanningAgainEmitsNothing(previous: Option<Snapshot>, current: Snapshot, options: Options, snapshot: Snapshot)
    requires WellFormed(current) && (previous.Some? ==> WellFormed(previous.value))
    requires snapshot == Plan(previous, current, options).snapshot
    ensures var again := Plan(Some(snapshot), current, options.(alterations := []));
            again.before == [] && again.after == [] && MembershipOf(again.snapshot.tables) == MembershipOf(snapshot.tables)
  {
    var again := options.(alterations := []);
    var (s, c) := (MembershipOf(snapshot.tables), MembershipOf(current.tables));
    PlanIsCorrect(Beside(map[], previous), previous, current, options);
    PlanAbsorbs(previous, current, options, s);
    SelfLists(snapshot.tables);
    SelfLists(current.tables);
    AgainEmitsNothing(snapshot, current, again, s, c);
    AgainKeepsTables(snapshot, current, again, s, c);
  }

  // ------------------------------------------------------------ type change safety

  /** No two published tables differ in case alone. */
  predicate FoldDistinct(fold: string -> string, tables: seq<Table>) {
    forall i, j :: 0 <= i < j < |tables| ==> Folded(fold, tables[i].id) != Folded(fold, tables[j].id)
  }

  predicate Alters(fold: string -> string, a: Alteration, table: Table) {
    && fold(if a.schema.Some? then a.schema.value else "public") == fold(table.id.schema)
    && fold(a.table) == fold(table.id.name)
    && exists i :: 0 <= i < |table.columns| && fold(table.columns[i]) == fold(a.column)
  }

  /** The migration's own statements change the type of a published column of the table. */
  predicate IsAltered(options: Options, table: Table) {
    exists i :: 0 <= i < |options.alterations| && Alters(options.fold, options.alterations[i], table)
  }

  lemma {:induction false} LookupFinds(fold: string -> string, tables: seq<Table>, i: nat)
    requires FoldDistinct(fold, tables) && i < |tables|
    ensures Lookup(fold, tables, Folded(fold, tables[i].id)) == Some(tables[i])
  {
    if i < |tables| - 1 {
      LookupFinds(fold, tables[..|tables| - 1], i);
    }
  }

  lemma AlteredIsListed(fold: string -> string, tables: seq<Table>, alterations: seq<Alteration>, table: Table, n: nat)
    requires n < |alterations| && Alters(fold, alterations[n], table)
    requires Lookup(fold, tables, Folded(fold, table.id)) == Some(table)
    ensures table in AlterTables(fold, tables, alterations)
  {
    var (keys, key) := (AffectedKeys(fold, tables, alterations), Folded(fold, table.id));
    assert Affects(fold, tables, alterations[n]);
    assert key in keys;
    var k :| 0 <= k < |keys| && keys[k] == key;
    assert TablesAt(fold, tables, keys)[k] == table;
  }

  lemma ListedIsAltered(fold: string -> string, tables: seq<Table>, alterations: seq<Alteration>, table: Table)
    requires table in AlterTables(fold, tables, alterations)
    ensures exists n :: 0 <= n < |alterations| && Alters(fold, alterations[n], table)
  {
    var keys := AffectedKeys(fold, tables, alterations);
    var k :| 0 <= k < |keys| && TablesAt(fold, tables, keys)[k] == table;
    assert keys[k] in keys && keys[k] == Folded(fold, table.id);
    var n :| 0 <= n < |alterations| && Affects(fold, tables, alterations[n]) && Target(fold, alterations[n]) == keys[k];
    assert Alters(fold, alterations[n], table);
  }

  lemma AlteredExactly(previous: Snapshot, options: Options, table: Table)
    requires FoldDistinct(options.fold, previous.tables) && table in previous.tables
    ensures table in TypeAlterTables(previous, options) <==> IsAltered(options, table)
  {
    var (fold, tables, alterations) := (options.fold, previous.tables, options.alterations);
    var i :| 0 <= i < |tables| && tables[i] == table;
    LookupFinds(fold, tables, i);
    if n :| 0 <= n < |alterations| && Alters(fold, alterations[n], table) {
      AlteredIsListed(fold, tables, alterations, table, n);
    }
    if table in TypeAlterTables(previous, options) {
      ListedIsAltered(fold, tables, alterations, table);
    }
  }

  /** The table is published under the name. */
  predicate Publishes(db: Publications, name: string, table: Table) {
    name in db && table.id in db[name]
  }

  /** No table whose published columns change type is published while the types change. */
  predicate SafeDuring(db: Publications, previous: Snapshot, options: Options) {
    forall i :: 0 <= i < |previous.tables| && IsAltered(options, previous.tables[i])
                ==> !Publishes(db, previous.name, previous.tables[i])
  }

  lemma OffExactlyAltered(previous: Snapshot, options: Options, p: Membership, i: nat)
    requires Lists(previous.tables, p) && FoldDistinct(options.fold, previous.tables) && i < |previous.tables|
    ensures previous.tables[i].id in Ids(TypeAlterTables(previous, options)) <==> IsAltered(options, previous.tables[i])
  {
    var (altered, t) := (TypeAlterTables(previous, options), previous.tables[i]);
    AlteredExactly(previous, options, t);
    AlterTablesPublished(options.fold, previous.tables, options.alterations);
    if t.id in Ids(altered) {
      var k :| 0 <= k < |altered| && altered[k].id == t.id;
      assert altered[k] in previous.tables;
      var j :| 0 <= j < |previous.tables| && previous.tables[j] == altered[k];
      assert altered[k] == t;
    }
  }

  /** Under an unchanged name exactly the altered tables are off the publication in between. */
  lemma OnlyAlteredAreOff(db: Publications, previous: Snapshot, current: Snapshot, options: Options, i: nat)
    requires WellFormed(previous) && Holds(db, previous) && previous.name == current.name
    requires FoldDistinct(options.fold, previous.tables) && i < |previous.tables|
    ensures var between := Run(db, Plan(Some(previous), current, options).before);
            between.Some? && (Publishes(between.value, previous.name, previous.tables[i]) <==> !IsAltered(options, previous.tables[i]))
  {
    var p := MembershipOf(previous.tables);
    SelfLists(previous.tables);
    OffExactlyAltered(previous, options, p, i);
    if TypeAlterTables(previous, options) != [] {
      DropAlteredRuns(db, previous, options, p);
    }
  }

  /**
   Type changes are safe exactly when the publication keeps its name or no published column
   changes its type. A renamed publication is dropped only after the types have changed.
   */
  lemma TypeChangesAreSafeExactly(db: Publications, previous: Snapshot, current: Snapshot, options: Options)
    requires WellFormed(previous) && WellFormed(current) && Holds(db, previous)
    requires FoldDistinct(options.fold, previous.tables)
    ensures var between := Run(db, Plan(Some(previous), current, options).before);
            between.Some? && (SafeDuring(between.value, previous, options) <==>
                              previous.name == current.name
                              || forall i :: 0 <= i < |previous.tables| ==> !IsAltered(options, previous.tables[i]))
  {
    SelfLists(previous.tables);
    if previous.name == current.name {
      forall i | 0 <= i < |previous.tables|
        ensures Run(db, Plan(Some(previous), current, options).before).Some?
        ensures Publishes(Run(db, Plan(Some(previous), current, options).before).value, previous.name, previous.tables[i])
                <==> !IsAltered(options, previous.tables[i])
      {
        OnlyAlteredAreOff(db, previous, current, options, i);
      }
    }
  }

  /**
   The smallest rename that is not safe: publication "a" publishes one column of one table,
   the migration changes the type of that column and renames the publication to "b".
   */
  lemma RenameLeavesAlteredTablePublished(options: Options, db: Publications)
    requires options.alterations == [Alteration(None, "t", "x")]
    requires db == map["a" := map[TableId("public", "t") := ["x"]]]
    ensures var table := Table(TableId("public", "t"), ["x"]);
            var (previous, current) := (Snapshot("a", [table]), Snapshot("b", [table]));
            && WellFormed(previous) && WellFormed(current) && Holds(db, previous)
            && FoldDistinct(options.fold, previous.tables)
            && Run(db, Plan(Some(previous), current, options).before) == Some(db)
            && IsAltered(options, table) && Publishes(db, "a", table) && !SafeDuring(db, previous, options)
  {
    var table := Table(TableId("public", "t"), ["x"]);
    var previous := Snapshot("a", [table]);
    assert [table][..0] == [] && MembershipOf([]) == map[];
    assert MembershipOf([table]) == map[table.id := table.columns];
    assert PublishesColumn(options.fold, table, "x") by {
      assert options.fold(table.columns[0]) == options.fold("x");
    }
    assert Alters(options.fold, options.alterations[0], table);
    assert IsAltered(options, previous.tables[0]) && Publishes(db, previous.name, previous.tables[0]);
  }

  // --------------------------------------------------------------- destructive flags

  predicate Flagged(statements: seq<Statement>) {
    exists i :: 0 <= i < |statements| && statements[i].destructive
  }

  lemma FlaggedIffDropped(previous: Snapshot, current: Snapshot, options: Options)
    requires previous.name == current.name
    ensures var plan := Plan(Some(previous), current, options);
            Flagged(plan.before) || Flagged(plan.after) <==> Dropped(previous, current, options) != []
  {
    var plan := Plan(Some(previous), current, options);
    if Dropped(previous, current, options) != [] {
      assert plan.after[|plan.after| - 1].destructive;
    }
  }

  lemma DroppedIffUnpublished(previous: Snapshot, current: Snapshot, options: Options, p: Membership, c: Membership)
    requires Between(previous, current, p, c)
    ensures Dropped(previous, current, options) != [] <==>
            exists i :: 0 <= i < |previous.tables| && previous.tables[i].id !in WantedSameName(p, c, options)
  {
    var (dropped, removed) := (Dropped(previous, current, options), Removed(previous, current));
    ListsIds(current.tables, c);
    if dropped != [] {
      AbsentTables(previous.tables, current.tables, dropped[0]);
      var i :| 0 <= i < |previous.tables| && previous.tables[i] == dropped[0];
      assert previous.tables[i].id !in c;
    }
    if i :| 0 <= i < |previous.tables| && previous.tables[i].id !in WantedSameName(p, c, options) {
      AbsentTables(previous.tables, current.tables, previous.tables[i]);
      assert previous.tables[i] in removed;
    }
  }

  /** Under an unchanged name a migration is flagged destructive exactly when it unpublishes some table for good. */
  lemma FlaggedExactly(previous: Snapshot, current: Snapshot, options: Options)
    requires WellFormed(previous) && WellFormed(current) && previous.name == current.name
    ensures var plan := Plan(Some(previous), current, options);
            Flagged(plan.before) || Flagged(plan.after) <==>
            exists i :: 0 <= i < |previous.tables| && previous.tables[i].id !in Wanted(Some(previous), current, options)
  {
    SelfLists(previous.tables);
    SelfLists(current.tables);
    FlaggedIffDropped(previous, current, options);
    DroppedIffUnpublished(previous, current, options, MembershipOf(previous.tables), MembershipOf(current.tables));
  }

  /** A first migration is never flagged; in a rename exactly the statement that drops the old publication is. */
  lemma RenameFlagsDrop(previous: Option<Snapshot>, current: Snapshot, options: Options)
    requires previous.Some? ==> previous.value.name != current.name
    ensures var plan := Plan(previous, current, options);
            && plan.before == [] && plan.snapshot == current
            && (previous.None? ==> !Flagged(plan.after))
            && (previous.Some? ==>
                  && |plan.after| == 2 && plan.after[0] == Statement(DropPublicationIfExists(previous.value.name), true)
                  && plan.after[1] == Statement(CreatePublication(current.name, current.tables), false))
  {
  }

  // ------------------------------------------------------------ order of tables

  /** What a comparison of names guarantees: no cycles, and names in between stay in between. */
  ghost predicate Compares(less: (TableId, TableId) -> bool) {
    && (forall a, b :: less(a, b) ==> !less(b, a))
    && (forall a, b, c :: !less(b, a) && !less(c, b) ==> !less(c, a))
  }

  predicate Ordered(less: (TableId, TableId) -> bool, tables: seq<Table>) {
    forall i, j :: 0 <= i < j < |tables| ==> !less(tables[j].id, tables[i].id)
  }

  lemma {:induction false} InsertOrders(less: (TableId, TableId) -> bool, table: Table, tables: seq<Table>)
    requires Compares(less) && Ordered(less, tables)
    ensures Ordered(less, InsertTable(less, table, tables))
  {
    if tables != [] && !less(table.id, tables[0].id) {
      var rest := InsertTable(less, table, tables[1..]);
      InsertOrders(less, table, tables[1..]);
      InsertTables(less, table, tables[1..]);
      forall j | 0 <= j < |rest| ensures !less(rest[j].id, tables[0].id) {
        assert rest[j] in rest;
      }
    } else {
      forall j | 0 <= j < |tables| ensures !less(tables[j].id, table.id) {
        assert j > 0 ==> !less(tables[j].id, tables[0].id);
      }
    }
  }

  lemma {:induction false} SortOrders(less: (TableId, TableId) -> bool, tables: seq<Table>)
    requires Compares(less)
    ensures Ordered(less, SortTables(less, tables))
  {
    if tables != [] {
      SortOrders(less, tables[..|tables| - 1]);
      InsertOrders(less, tables[|tables| - 1], SortTables(less, tables[..|tables| - 1]));
    }
  }

  /** The snapshot that a plan returns lists its tables in order whenever the wanted one does. */
  lemma SnapshotStaysOrdered(previous: Option<Snapshot>, current: Snapshot, options: Options)
    requires Compares(options.less) && Ordered(options.less, current.tables)
    ensures Ordered(options.less, Plan(previous, current, options).snapshot.tables)
  {
    if previous.Some? {
      var retained := if options.dropRemovedTables then [] else Removed(previous.value, current);
      SortOrders(options.less, current.tables + retained);
    }
  }
}
