/** Lists of tables and the memberships that they describe. */
module PublicationMemberships {
  import opened Publication

  /** A list of tables with distinct ids says exactly what a membership says. */
  predicate Lists(tables: seq<Table>, m: Membership) {
    DistinctIds(tables) && AgreesWith(tables, m) && Covers(tables, m)
  }

  predicate AgreesWith(tables: seq<Table>, m: Membership) {
    forall i :: 0 <= i < |tables| ==> tables[i].id in m && m[tables[i].id] == tables[i].columns
  }

  predicate Covers(tables: seq<Table>, m: Membership) {
    forall id :: id in m ==> HasId(tables, id)
  }

  lemma {:induction false} SelfLists(tables: seq<Table>)
    requires DistinctIds(tables)
    ensures Lists(tables, MembershipOf(tables))
  {
    if tables != [] {
      var (front, last) := (tables[..|tables| - 1], tables[|tables| - 1]);
      SelfLists(front);
      LastLists(front, last, MembershipOf(front));
      assert tables == front + [last];
    }
  }

  lemma LastLists(front: seq<Table>, last: Table, m: Membership)
    requires Lists(front, m) && DistinctIds(front + [last])
    ensures Lists(front + [last], m[last.id := last.columns])
  {
    var tables := front + [last];
    forall i | 0 <= i < |front| ensures tables[i].id != last.id {
      assert tables[|front|] == last;
    }
    forall id | id in m[last.id := last.columns] ensures HasId(tables, id) {
      if id == last.id {
        assert tables[|front|].id == id;
      } else {
        HasIdJoin(front, [last], id);
      }
    }
  }

  lemma HasIdJoin(a: seq<Table>, b: seq<Table>, id: TableId)
    ensures HasId(a + b, id) <==> HasId(a, id) || HasId(b, id)
  {
    if i :| 0 <= i < |a| && a[i].id == id {
      assert (a + b)[i].id == id;
    }
    if i :| 0 <= i < |b| && b[i].id == id {
      assert (a + b)[|a| + i].id == id;
    }
    if i :| 0 <= i < |a + b| && (a + b)[i].id == id {
      assert if i < |a| then a[i].id == id else b[i - |a|].id == id;
    }
  }

  lemma ListsMembership(tables: seq<Table>, m: Membership)
    requires Lists(tables, m)
    ensures MembershipOf(tables) == m
  {
    SelfLists(tables);
    SameMembership(tables, MembershipOf(tables), m);
  }

  lemma SameMembership(tables: seq<Table>, a: Membership, b: Membership)
    requires Lists(tables, a) && Lists(tables, b)
    ensures a == b
  {
    forall id ensures (id in a <==> id in b) && (id in a && id in b ==> a[id] == b[id]) {
      if id in a || id in b {
        var i :| 0 <= i < |tables| && tables[i].id == id;
      }
    }
  }

  lemma ListsIds(tables: seq<Table>, m: Membership)
    requires Lists(tables, m)
    ensures Ids(tables) == m.Keys
    ensures forall id :: HasId(tables, id) <==> id in m
  {
    forall id ensures HasId(tables, id) <==> id in m {
      if i :| 0 <= i < |tables| && tables[i].id == id {
        assert tables[i].id in m;
      }
    }
    assert forall id :: id in Ids(tables) <==> HasId(tables, id);
  }

  // ---------------------------------------------------------------------- joining

  lemma DistinctJoin(a: seq<Table>, b: seq<Table>)
    requires DistinctIds(a) && DistinctIds(b) && forall i :: 0 <= i < |b| ==> !HasId(a, b[i].id)
    ensures DistinctIds(a + b)
  {
    var tables := a + b;
    forall i, j | 0 <= i < j < |tables| ensures tables[i].id != tables[j].id {
      if i < |a| <= j {
        assert !HasId(a, b[j - |a|].id) && tables[i] == a[i];
      }
    }
  }

  lemma AgreesJoin(a: seq<Table>, b: seq<Table>, ma: Membership, mb: Membership)
    requires AgreesWith(a, ma) && AgreesWith(b, mb) && ma.Keys !! mb.Keys
    ensures AgreesWith(a + b, ma + mb)
  {
    var (tables, m) := (a + b, ma + mb);
    forall i | 0 <= i < |tables| ensures tables[i].id in m && m[tables[i].id] == tables[i].columns {
      if i < |a| {
        assert tables[i] == a[i] && a[i].id in ma;
      } else {
        assert tables[i] == b[i - |a|] && b[i - |a|].id in mb;
      }
    }
  }

  lemma CoversJoin(a: seq<Table>, b: seq<Table>, ma: Membership, mb: Membership)
    requires Covers(a, ma) && Covers(b, mb)
    ensures Covers(a + b, ma + mb)
  {
    forall id | id in ma + mb ensures HasId(a + b, id) {
      HasIdJoin(a, b, id);
    }
  }

  lemma ListsJoin(a: seq<Table>, b: seq<Table>, ma: Membership, mb: Membership)
    requires Lists(a, ma) && Lists(b, mb) && ma.Keys !! mb.Keys
    ensures Lists(a + b, ma + mb)
  {
    ListsIds(a, ma);
    forall i | 0 <= i < |b| ensures !HasId(a, b[i].id) {
      assert b[i].id in mb;
    }
    DistinctJoin(a, b);
    AgreesJoin(a, b, ma, mb);
    CoversJoin(a, b, ma, mb);
  }

  // --------------------------------------------------------------------- the rest

  lemma {:induction false} AbsentTables(tables: seq<Table>, others: seq<Table>, t: Table)
    ensures t in Absent(tables, others) <==> t in tables && !HasId(others, t.id)
  {
    if tables != [] {
      var (front, last) := (tables[..|tables| - 1], tables[|tables| - 1]);
      AbsentTables(front, others, t);
      assert tables == front + [last];
    }
  }

  /** `at` says where the selected tables stand, in order. */
  predicate StandInOrder(tables: seq<Table>, selected: seq<Table>, at: seq<nat>) {
    && |at| == |selected|
    && (forall i :: 0 <= i < |at| ==> at[i] < |tables| && tables[at[i]] == selected[i])
    && (forall i, j :: 0 <= i < j < |at| ==> at[i] < at[j])
  }

  lemma StandMore(tables: seq<Table>, n: nat, selected: seq<Table>, at: seq<nat>)
    requires n < |tables| && StandInOrder(tables[..n], selected, at)
    ensures StandInOrder(tables, selected, at) && StandInOrder(tables, selected + [tables[n]], at + [n])
  {
    assert forall i :: 0 <= i < |at| ==> tables[..n][at[i]] == tables[at[i]];
  }

  /** The tables that others lack stay in their order. */
  lemma {:induction false} AbsentInOrder(tables: seq<Table>, others: seq<Table>, absent: seq<Table>) returns (at: seq<nat>)
    requires absent == Absent(tables, others)
    ensures StandInOrder(tables, absent, at)
    decreases |tables|
  {
    at := [];
    if tables != [] {
      var n := |tables| - 1;
      var front := Absent(tables[..n], others);
      at := AbsentInOrder(tables[..n], others, front);
      StandMore(tables, n, front, at);
      if !HasId(others, tables[n].id) {
        at := at + [n];
      }
    }
  }

  lemma {:induction false} AbsentDistinct(tables: seq<Table>, others: seq<Table>)
    requires DistinctIds(tables)
    ensures DistinctIds(Absent(tables, others))
  {
    if tables != [] {
      var (front, last) := (tables[..|tables| - 1], tables[|tables| - 1]);
      var rest := Absent(front, others);
      AbsentDistinct(front, others);
      forall i | 0 <= i < |rest| ensures rest[i].id != last.id {
        AbsentTables(front, others, rest[i]);
        var j :| 0 <= j < |front| && front[j] == rest[i];
        assert tables[j] == front[j];
      }
    }
  }

  /** The tables that others lack list the membership without the ids of the others. */
  lemma AbsentLists(tables: seq<Table>, others: seq<Table>, m: Membership)
    requires Lists(tables, m)
    ensures Lists(Absent(tables, others), m - Ids(others))
  {
    AbsentDistinct(tables, others);
    AbsentAgrees(tables, others, m);
    AbsentCovers(tables, others, m);
  }

  lemma AbsentAgrees(tables: seq<Table>, others: seq<Table>, m: Membership)
    requires AgreesWith(tables, m)
    ensures AgreesWith(Absent(tables, others), m - Ids(others))
  {
    var (absent, rest) := (Absent(tables, others), m - Ids(others));
    forall i | 0 <= i < |absent| ensures absent[i].id in rest && rest[absent[i].id] == absent[i].columns {
      AbsentTables(tables, others, absent[i]);
      var j :| 0 <= j < |tables| && tables[j] == absent[i];
      assert absent[i].id !in Ids(others);
    }
  }

  lemma AbsentCovers(tables: seq<Table>, others: seq<Table>, m: Membership)
    requires Covers(tables, m)
    ensures Covers(Absent(tables, others), m - Ids(others))
  {
    forall id | id in m - Ids(others) ensures HasId(Absent(tables, others), id) {
      var i :| 0 <= i < |tables| && tables[i].id == id;
      AbsentTables(tables, others, tables[i]);
      assert forall j :: 0 <= j < |others| && others[j].id == id ==> id in Ids(others);
      var j :| 0 <= j < |Absent(tables, others)| && Absent(tables, others)[j] == tables[i];
    }
  }

  lemma {:induction false} NoneAbsent(tables: seq<Table>, others: seq<Table>)
    requires forall i :: 0 <= i < |tables| ==> HasId(others, tables[i].id)
    ensures Absent(tables, others) == []
  {
    if tables != [] {
      NoneAbsent(tables[..|tables| - 1], others);
    }
  }

  // ---------------------------------------------------------------------- sorting

  lemma SameTables(a: seq<Table>, b: seq<Table>, m: Membership)
    requires DistinctIds(a) && Lists(b, m) && forall t :: t in a <==> t in b
    ensures Lists(a, m)
  {
    forall i | 0 <= i < |a| ensures a[i].id in m && m[a[i].id] == a[i].columns {
      assert a[i] in b;
    }
    forall id | id in m ensures HasId(a, id) {
      var i :| 0 <= i < |b| && b[i].id == id;
      assert b[i] in a;
    }
  }

  lemma {:induction false} InsertTables(less: (TableId, TableId) -> bool, table: Table, tables: seq<Table>)
    ensures forall t :: t in InsertTable(less, table, tables) <==> t == table || t in tables
    ensures InsertTable(less, table, tables) != []
  {
    if tables != [] && !less(table.id, tables[0].id) {
      InsertTables(less, table, tables[1..]);
      assert tables == [tables[0]] + tables[1..];
    }
  }

  lemma {:induction false} InsertDistinct(less: (TableId, TableId) -> bool, table: Table, tables: seq<Table>)
    requires DistinctIds(tables) && forall i :: 0 <= i < |tables| ==> tables[i].id != table.id
    ensures DistinctIds(InsertTable(less, table, tables))
  {
    if tables != [] && !less(table.id, tables[0].id) {
      var rest := tables[1..];
      assert forall i :: 0 <= i < |rest| ==> rest[i] == tables[i + 1];
      InsertDistinct(less, table, rest);
      InsertTables(less, table, rest);
      var sorted := InsertTable(less, table, rest);
      forall i | 0 <= i < |sorted| ensures sorted[i].id != tables[0].id {
        assert sorted[i] in sorted;
      }
    }
  }

  lemma {:induction false} SortKeepsTables(less: (TableId, TableId) -> bool, tables: seq<Table>)
    ensures forall t :: t in SortTables(less, tables) <==> t in tables
    ensures SortTables(less, tables) == [] <==> tables == []
  {
    if tables != [] {
      var (front, last) := (tables[..|tables| - 1], tables[|tables| - 1]);
      SortKeepsTables(less, front);
      InsertTables(less, last, SortTables(less, front));
      assert tables == front + [last];
    }
  }

  lemma {:induction false} SortDistinct(less: (TableId, TableId) -> bool, tables: seq<Table>)
    requires DistinctIds(tables)
    ensures DistinctIds(SortTables(less, tables))
  {
    if tables != [] {
      var (front, last) := (tables[..|tables| - 1], tables[|tables| - 1]);
      var sorted := SortTables(less, front);
      SortDistinct(less, front);
      SortKeepsTables(less, front);
      forall i | 0 <= i < |sorted| ensures sorted[i].id != last.id {
        assert sorted[i] in front;
        var j :| 0 <= j < |front| && front[j] == sorted[i];
        assert tables[j] == front[j];
      }
      InsertDistinct(less, last, sorted);
    }
  }

  lemma SortLists(less: (TableId, TableId) -> bool, tables: seq<Table>, m: Membership)
    requires Lists(tables, m)
    ensures Lists(SortTables(less, tables), m)
  {
    SortDistinct(less, tables);
    SortKeepsTables(less, tables);
    SameTables(SortTables(less, tables), tables, m);
  }
}
