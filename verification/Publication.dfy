/**
 The planner of publication migrations. It compares the snapshot stored with the last
 migration against the wanted one and emits statements that run before and after the
 migration's own statements, together with the snapshot that they are to leave behind.
 */
module Publication {
  import opened Wrappers

  datatype TableId = TableId(schema: string, name: string)

  datatype Table = Table(id: TableId, columns: seq<string>)

  datatype Snapshot = Snapshot(name: string, tables: seq<Table>)

  /** A change of a column's type found in the migration's own statements. */
  datatype Alteration = Alteration(schema: Option<string>, table: string, column: string)

  const DEFAULT_SCHEMA := "public"

  predicate HasId(tables: seq<Table>, id: TableId) {
    exists i :: 0 <= i < |tables| && tables[i].id == id
  }

  predicate DistinctIds(tables: seq<Table>) {
    forall i, j :: 0 <= i < j < |tables| ==> tables[i].id != tables[j].id
  }

  /** What the construction of a snapshot guarantees about its tables. */
  predicate WellFormed(snapshot: Snapshot) {
    snapshot.tables != [] && DistinctIds(snapshot.tables)
  }

  // ---------------------------------------------------------------- database

  type Membership = map<TableId, seq<string>>

  /** The publications of a database with the tables and columns that each one publishes. */
  type Publications = map<string, Membership>

  datatype Command =
    | CreatePublication(name: string, tables: seq<Table>)
    | AddTables(name: string, tables: seq<Table>)
    | DropTables(name: string, tables: seq<Table>)
    | SetTables(name: string, tables: seq<Table>)
    | DropPublicationIfExists(name: string)

  datatype Statement = Statement(command: Command, destructive: bool)

  function MembershipOf(tables: seq<Table>): Membership {
    if tables == [] then map[]
    else MembershipOf(tables[..|tables| - 1])[tables[|tables| - 1].id := tables[|tables| - 1].columns]
  }

  function Ids(tables: seq<Table>): set<TableId> {
    set i | 0 <= i < |tables| :: tables[i].id
  }

  /** The database accepts the command. */
  predicate Accepts(db: Publications, command: Command) {
    match command
    case CreatePublication(name, tables) => name !in db && tables != [] && DistinctIds(tables)
    case AddTables(name, tables) =>
      name in db && tables != [] && DistinctIds(tables) && forall i :: 0 <= i < |tables| ==> tables[i].id !in db[name]
    case DropTables(name, tables) =>
      name in db && tables != [] && DistinctIds(tables) && forall i :: 0 <= i < |tables| ==> tables[i].id in db[name]
    case SetTables(name, tables) => name in db && tables != [] && DistinctIds(tables)
    case DropPublicationIfExists(_) => true
  }

  function Executed(db: Publications, command: Command): Publications
    requires Accepts(db, command)
  {
    match command
    case CreatePublication(name, tables) => db[name := MembershipOf(tables)]
    case AddTables(name, tables) => db[name := db[name] + MembershipOf(tables)]
    case DropTables(name, tables) => db[name := db[name] - Ids(tables)]
    case SetTables(name, tables) => db[name := MembershipOf(tables)]
    case DropPublicationIfExists(name) => db - {name}
  }

  /** The database after all statements, or nothing when it refuses one of them. */
  function Run(db: Publications, statements: seq<Statement>): Option<Publications>
    decreases |statements|
  {
    if statements == [] then Some(db)
    else if !Accepts(db, statements[0].command) then None
    else Run(Executed(db, statements[0].command), statements[1..])
  }

  // ------------------------------------------------- tables with altered columns

  /** Identifiers are compared after folding them to lower case. */
  function Folded(fold: string -> string, id: TableId): TableId {
    TableId(fold(id.schema), fold(id.name))
  }

  function Target(fold: string -> string, a: Alteration): TableId {
    TableId(fold(if a.schema.Some? then a.schema.value else DEFAULT_SCHEMA), fold(a.table))
  }

  predicate PublishesColumn(fold: string -> string, table: Table, column: string) {
    exists i :: 0 <= i < |table.columns| && fold(table.columns[i]) == fold(column)
  }

  /** The table that a map from folded ids to tables holds: the last one with the id. */
  function Lookup(fold: string -> string, tables: seq<Table>, key: TableId): (found: Option<Table>)
    ensures found.Some? ==> found.value in tables && Folded(fold, found.value.id) == key
  {
    if tables == [] then None
    else if Folded(fold, tables[|tables| - 1].id) == key then Some(tables[|tables| - 1])
    else Lookup(fold, tables[..|tables| - 1], key)
  }

  predicate Affects(fold: string -> string, tables: seq<Table>, a: Alteration) {
    var found := Lookup(fold, tables, Target(fold, a));
    found.Some? && PublishesColumn(fold, found.value, a.column)
  }

  /** The folded ids of the affected tables in the order in which they were first met. */
  function AffectedKeys(fold: string -> string, tables: seq<Table>, alterations: seq<Alteration>): (keys: seq<TableId>)
    ensures forall k :: k in keys ==> Lookup(fold, tables, k).Some?
    ensures forall i, j :: 0 <= i < j < |keys| ==> keys[i] != keys[j]
    ensures forall k :: k in keys <==> exists i :: 0 <= i < |alterations| && Affects(fold, tables, alterations[i])
                                                   && Target(fold, alterations[i]) == k
  {
    if alterations == [] then []
    else
      var n := |alterations| - 1;
      var keys := AffectedKeys(fold, tables, alterations[..n]);
      assert forall i :: 0 <= i < n ==> alterations[..n][i] == alterations[i];
      if Affects(fold, tables, alterations[n]) && Target(fold, alterations[n]) !in keys
      then keys + [Target(fold, alterations[n])] else keys
  }

  /** The key is first met at alteration `a`. */
  ghost predicate MetAt(fold: string -> string, tables: seq<Table>, alterations: seq<Alteration>, key: TableId, a: nat) {
    && a < |alterations| && Affects(fold, tables, alterations[a]) && Target(fold, alterations[a]) == key
    && forall b :: 0 <= b < a && Affects(fold, tables, alterations[b]) ==> Target(fold, alterations[b]) != key
  }

  lemma MetInPrefix(fold: string -> string, tables: seq<Table>, alterations: seq<Alteration>, n: nat, key: TableId, a: nat)
    requires n <= |alterations| && MetAt(fold, tables, alterations[..n], key, a)
    ensures a < n && MetAt(fold, tables, alterations, key, a)
  {
    assert forall b :: 0 <= b < n ==> alterations[..n][b] == alterations[b];
  }

  lemma MetNow(fold: string -> string, tables: seq<Table>, alterations: seq<Alteration>, n: nat, key: TableId)
    requires n < |alterations| && Affects(fold, tables, alterations[n]) && Target(fold, alterations[n]) == key
    requires key !in AffectedKeys(fold, tables, alterations[..n])
    ensures MetAt(fold, tables, alterations, key, n)
  {
    forall b | 0 <= b < n && Affects(fold, tables, alterations[b]) ensures Target(fold, alterations[b]) != key {
      assert alterations[..n][b] == alterations[b];
    }
  }

  /** `at` says where each of the keys is first met, in order. */
  ghost predicate MetInOrder(fold: string -> string, tables: seq<Table>, alterations: seq<Alteration>, keys: seq<TableId>, at: seq<nat>) {
    && |at| == |keys|
    && (forall i :: 0 <= i < |at| ==> MetAt(fold, tables, alterations, keys[i], at[i]))
    && (forall i, j :: 0 <= i < j < |at| ==> at[i] < at[j])
  }

  lemma MetMore(fold: string -> string, tables: seq<Table>, alterations: seq<Alteration>, n: nat, keys: seq<TableId>, at: seq<nat>)
    requires n <= |alterations| && MetInOrder(fold, tables, alterations[..n], keys, at)
    ensures MetInOrder(fold, tables, alterations, keys, at) && forall i :: 0 <= i < |at| ==> at[i] < n
  {
    forall i | 0 <= i < |at| ensures MetAt(fold, tables, alterations, keys[i], at[i]) && at[i] < n {
      MetInPrefix(fold, tables, alterations, n, keys[i], at[i]);
    }
  }

  /** The keys come in the order in which they are first met. */
  lemma {:induction false} KeysInOrder(fold: string -> string, tables: seq<Table>, alterations: seq<Alteration>, keys: seq<TableId>)
    returns (at: seq<nat>)
    requires keys == AffectedKeys(fold, tables, alterations)
    ensures MetInOrder(fold, tables, alterations, keys, at)
    decreases |alterations|
  {
    at := [];
    if alterations != [] {
      var n := |alterations| - 1;
      var front := AffectedKeys(fold, tables, alterations[..n]);
      at := KeysInOrder(fold, tables, alterations[..n], front);
      MetMore(fold, tables, alterations, n, front, at);
      if keys != front {
        MetNow(fold, tables, alterations, n, Target(fold, alterations[n]));
        at := at + [n];
      }
    }
  }

  function TablesAt(fold: string -> string, tables: seq<Table>, keys: seq<TableId>): (found: seq<Table>)
    requires forall k :: k in keys ==> Lookup(fold, tables, k).Some?
    ensures |found| == |keys|
    ensures forall i :: 0 <= i < |found| ==> Lookup(fold, tables, keys[i]) == Some(found[i])
  {
    seq(|keys|, i requires 0 <= i < |keys| => Lookup(fold, tables, keys[i]).value)
  }

  function AlterTables(fold: string -> string, tables: seq<Table>, alterations: seq<Alteration>): seq<Table> {
    TablesAt(fold, tables, AffectedKeys(fold, tables, alterations))
  }

  /** The map agrees with looking up the last table. */
  ghost predicate IndexesTables(byKey: map<TableId, Table>, fold: string -> string, tables: seq<Table>) {
    && (forall k :: k in byKey <==> Lookup(fold, tables, k).Some?)
    && (forall k :: k in byKey ==> Lookup(fold, tables, k) == Some(byKey[k]))
  }

  method IndexTables(fold: string -> string, tables: seq<Table>) returns (byKey: map<TableId, Table>)
    ensures IndexesTables(byKey, fold, tables)
  {
    byKey := map[];
    for n := 0 to |tables|
      invariant IndexesTables(byKey, fold, tables[..n])
    {
      assert tables[..n + 1][..n] == tables[..n];
      byKey := byKey[Folded(fold, tables[n].id) := tables[n]];
    }
    assert tables[..|tables|] == tables;
  }

  method PublishedColumnTypeAlterTables(fold: string -> string, tables: seq<Table>, alterations: seq<Alteration>)
    returns (result: seq<Table>)
    ensures result == AlterTables(fold, tables, alterations)
  {
    var byKey := IndexTables(fold, tables);
    var keys: seq<TableId> := [];
    for n := 0 to |alterations|
      invariant keys == AffectedKeys(fold, tables, alterations[..n])
    {
      assert alterations[..n + 1][..n] == alterations[..n];
      var (a, key) := (alterations[n], Target(fold, alterations[n]));
      if key in byKey && PublishesColumn(fold, byKey[key], a.column) && key !in keys {
        keys := keys + [key];
      }
    }
    assert alterations[..|alterations|] == alterations;
    result := [];
    for n := 0 to |keys|
      invariant |result| == n && forall i :: 0 <= i < n ==> Lookup(fold, tables, keys[i]) == Some(result[i])
    {
      result := result + [byKey[keys[n]]];
    }
  }

  // ------------------------------------------------------------------ planner

  /** The tables whose id the others lack, in order. */
  function Absent(tables: seq<Table>, others: seq<Table>): seq<Table> {
    if tables == [] then []
    else
      var last := tables[|tables| - 1];
      var rest := Absent(tables[..|tables| - 1], others);
      if HasId(others, last.id) then rest else rest + [last]
  }

  function InsertTable(less: (TableId, TableId) -> bool, table: Table, tables: seq<Table>): seq<Table> {
    if tables == [] || less(table.id, tables[0].id) then [table] + tables
    else [tables[0]] + InsertTable(less, table, tables[1..])
  }

  function SortTables(less: (TableId, TableId) -> bool, tables: seq<Table>): seq<Table> {
    if tables == [] then []
    else InsertTable(less, tables[|tables| - 1], SortTables(less, tables[..|tables| - 1]))
  }

  /** What the planner is given besides the two snapshots. */
  datatype Options = Options(
    dropRemovedTables: bool,
    alterations: seq<Alteration>,
    fold: string -> string,
    less: (TableId, TableId) -> bool)

  datatype Migration = Migration(before: seq<Statement>, after: seq<Statement>, snapshot: Snapshot)

  function Added(previous: Snapshot, current: Snapshot): seq<Table> {
    Absent(current.tables, previous.tables)
  }

  function Removed(previous: Snapshot, current: Snapshot): seq<Table> {
    Absent(previous.tables, current.tables)
  }

  function EffectiveCurrent(previous: Snapshot, current: Snapshot, options: Options): Snapshot {
    var retained := if options.dropRemovedTables then [] else Removed(previous, current);
    Snapshot(current.name, SortTables(options.less, current.tables + retained))
  }

  predicate ColumnsChange(previous: Snapshot, table: Table) {
    exists i :: 0 <= i < |previous.tables| && previous.tables[i].id == table.id && previous.tables[i].columns != table.columns
  }

  predicate ChangedColumns(previous: Snapshot, current: Snapshot) {
    exists i :: 0 <= i < |current.tables| && ColumnsChange(previous, current.tables[i])
  }

  function AddAndDrop(name: string, added: seq<Table>, dropped: seq<Table>): seq<Statement> {
    (if added != [] then [Statement(AddTables(name, added), false)] else [])
    + (if dropped != [] then [Statement(DropTables(name, dropped), true)] else [])
  }

  /** The removed tables that the migration takes off the publication. */
  function Dropped(previous: Snapshot, current: Snapshot, options: Options): seq<Table> {
    if options.dropRemovedTables then Removed(previous, current) else []
  }

  function TypeAlterTables(previous: Snapshot, options: Options): seq<Table> {
    AlterTables(options.fold, previous.tables, options.alterations)
  }

  function SetStatement(snapshot: Snapshot, destructive: bool): Statement {
    Statement(SetTables(snapshot.name, snapshot.tables), destructive)
  }

  /** Altered tables are dropped before their types change, and all tables set afterwards. */
  function TypeAlterPlan(previous: Snapshot, current: Snapshot, options: Options): Migration {
    var effective := EffectiveCurrent(previous, current, options);
    Migration([Statement(DropTables(current.name, TypeAlterTables(previous, options)), false)],
              [SetStatement(effective, Dropped(previous, current, options) != [])], effective)
  }

  function ChangedColumnsPlan(previous: Snapshot, current: Snapshot, options: Options): Migration {
    var snapshot := if options.dropRemovedTables then current else EffectiveCurrent(previous, current, options);
    Migration([], [SetStatement(snapshot, Dropped(previous, current, options) != [])], snapshot)
  }

  function TableSetPlan(previous: Snapshot, current: Snapshot, options: Options): Migration {
    Migration([], AddAndDrop(current.name, Added(previous, current), Dropped(previous, current, options)),
              EffectiveCurrent(previous, current, options))
  }

  /** The plan against a previous snapshot of the same name. */
  function PlanSameName(previous: Snapshot, current: Snapshot, options: Options): Migration {
    if TypeAlterTables(previous, options) != [] then TypeAlterPlan(previous, current, options)
    else if ChangedColumns(previous, current) then ChangedColumnsPlan(previous, current, options)
    else TableSetPlan(previous, current, options)
  }

  function Plan(previous: Option<Snapshot>, current: Snapshot, options: Options): Migration {
    var create := Statement(CreatePublication(current.name, current.tables), false);
    match previous
    case None => Migration([], [create], current)
    case Some(p) =>
      if p.name != current.name then
        Migration([], [Statement(DropPublicationIfExists(p.name), true), create], current)
      else PlanSameName(p, current, options)
  }
}
