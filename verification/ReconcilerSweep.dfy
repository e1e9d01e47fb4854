/**
 Sweeps of the reconciler: consecutive calls from an empty cursor to an empty page, with
 arbitrary changes of the run table between any two calls.

 Every run that stays running with the same timestamp is listed at least once. It is
 listed exactly once when the rows that end a page have whole-millisecond timestamps;
 a row that ends a page with a fraction of a millisecond is listed again, because the
 cursor has lost the fraction.
 */
module ReconcilerSweep {
  import opened Wrappers
  import opened WorkflowTables
  import opened Pages

  datatype Call = Call(tables: Tables, cursor: Option<Cursor>, page: seq<Run>)

  function NextCursor(page: seq<Run>): Option<Cursor> {
    if page == [] then None else Some(CursorAt(page[|page| - 1]))
  }

  /** Calls of a sweep so far: from an empty cursor, each resuming after the page before it. */
  ghost predicate Underway(calls: seq<Call>, limit: int) {
    && limit >= 1 && |calls| >= 1
    && calls[0].cursor == None
    && (forall k :: 0 <= k < |calls| ==> IsPage(calls[k].tables, RunStatus.Running, limit, calls[k].cursor, calls[k].page))
    && (forall k :: 0 <= k < |calls| - 1 ==> Continues(calls, k))
  }

  /** A completed sweep: its last page, and no other, is empty. */
  ghost predicate Sweep(calls: seq<Call>, limit: int) {
    Underway(calls, limit) && calls[|calls| - 1].page == []
  }

  /** Call `k` lists something, and the next call resumes after its page. */
  predicate Continues(calls: seq<Call>, k: nat)
    requires k < |calls| - 1
  {
    calls[k].page != [] && calls[k + 1].cursor == NextCursor(calls[k].page)
  }

  /** The run with this key is running during the calls from `from` on. */
  ghost predicate Stays(calls: seq<Call>, from: nat, key: Cursor) {
    forall k :: from <= k < |calls| ==>
      key.runId in calls[k].tables.runs
      && var run := calls[k].tables.runs[key.runId];
         run.status.Running? && Key(run) == key
  }

  predicate WholeMillisecond(run: Run) {
    run.updatedAt % 1000 == 0
  }

  lemma CursorNotPast(a: Run, b: Run)
    requires a == b || Before(a, b)
    ensures CursorAt(a) == Key(b) || KeyLess(CursorAt(a), Key(b))
  {
  }

  /** A staying run that the cursor has not passed is in some later page. */
  lemma {:induction false} ListedFrom(calls: seq<Call>, limit: int, from: nat, key: Cursor) returns (k: nat)
    requires Sweep(calls, limit) && from < |calls| && Stays(calls, from, key)
    requires calls[from].cursor.Some? ==> KeyLess(calls[from].cursor.value, key)
    ensures from <= k < |calls| && InPage(calls[k].page, key.runId)
    decreases |calls| - from
  {
    var call := calls[from];
    var run := call.tables.runs[key.runId];
    assert Listed(call.tables, key.runId, RunStatus.Running, call.cursor);
    if InPage(call.page, key.runId) {
      k := from;
    } else {
      var last := call.page[|call.page| - 1];
      assert Before(last, run);
      CursorNotPast(last, run);
      KeyLessStep(last, run);
      assert Stays(calls, from + 1, key);
      assert Continues(calls, from);
      k := ListedFrom(calls, limit, from + 1, key);
    }
  }

  lemma KeyLessStep(a: Run, b: Run)
    requires Before(a, b)
    ensures KeyLess(CursorAt(a), Key(b))
  {
  }

  /** No run that stays running is ever missed by a completed sweep. */
  lemma ListedAtLeastOnce(calls: seq<Call>, limit: int, key: Cursor)
    requires Sweep(calls, limit) && Stays(calls, 0, key)
    ensures exists k :: 0 <= k < |calls| && InPage(calls[k].page, key.runId)
  {
    var k := ListedFrom(calls, limit, 0, key);
  }

  /** Every row that ends a page has a timestamp the cursor can hold. */
  predicate WholeCursors(calls: seq<Call>) {
    forall k :: 0 <= k < |calls| && calls[k].page != [] ==> WholeMillisecond(calls[k].page[|calls[k].page| - 1])
  }

  /** Rows of a page come no later than the cursor taken from it, if that row is whole. */
  lemma PageBehindCursor(call: Call, limit: int, i: nat)
    requires IsPage(call.tables, RunStatus.Running, limit, call.cursor, call.page)
    requires i < |call.page| && WholeMillisecond(call.page[|call.page| - 1])
    ensures !KeyLess(NextCursor(call.page).value, Key(call.page[i]))
  {
    var last := call.page[|call.page| - 1];
    assert NextCursor(call.page).value == Key(last);
    KeyLessTotal(Key(last), Key(last));
    if i < |call.page| - 1 {
      assert Before(call.page[i], last);
      if KeyLess(Key(last), Key(call.page[i])) {
        KeyLessTransitive(Key(last), Key(call.page[i]), Key(last));
      }
    }
  }

  /** With whole cursors the cursor never comes back before a key it has passed. */
  lemma {:induction false} StaysBehind(calls: seq<Call>, limit: int, k: nat, j: nat, key: Cursor)
    requires Sweep(calls, limit) && WholeCursors(calls) && 1 <= k <= j < |calls|
    requires calls[k].cursor.Some? && !KeyLess(calls[k].cursor.value, key)
    ensures calls[j].cursor.Some? && !KeyLess(calls[j].cursor.value, key)
    decreases j - k
  {
    if k < j {
      var call := calls[k];
      assert Continues(calls, k);
      var last := call.page[|call.page| - 1];
      assert Listed(call.tables, last.runId, RunStatus.Running, call.cursor);
      assert KeyLess(call.cursor.value, Key(last)) && calls[k + 1].cursor.value == Key(last);
      if KeyLess(Key(last), key) {
        KeyLessTransitive(call.cursor.value, Key(last), key);
      }
      StaysBehind(calls, limit, k + 1, j, key);
    }
  }

  lemma ListedIsBehind(calls: seq<Call>, limit: int, key: Cursor, j: nat)
    requires Sweep(calls, limit) && Stays(calls, 0, key) && WholeCursors(calls)
    requires j + 1 < |calls| && InPage(calls[j].page, key.runId)
    ensures calls[j + 1].cursor.Some? && !KeyLess(calls[j + 1].cursor.value, key)
  {
    var i :| 0 <= i < |calls[j].page| && calls[j].page[i].runId == key.runId;
    assert Key(calls[j].page[i]) == key;
    PageBehindCursor(calls[j], limit, i);
    assert Continues(calls, j);
  }

  lemma NotListedAgain(calls: seq<Call>, limit: int, key: Cursor, j: nat, k: nat)
    requires Sweep(calls, limit) && Stays(calls, 0, key) && WholeCursors(calls)
    requires j < k < |calls| && InPage(calls[j].page, key.runId)
    ensures !InPage(calls[k].page, key.runId)
  {
    ListedIsBehind(calls, limit, key, j);
    StaysBehind(calls, limit, j + 1, k, key);
    assert !Listed(calls[k].tables, key.runId, RunStatus.Running, calls[k].cursor);
  }

  /**
   With whole cursors, a run that stays running with an unchanged timestamp is listed by
   exactly one call of the sweep, whatever the other runs do.
   */
  lemma ListedExactlyOnce(calls: seq<Call>, limit: int, key: Cursor)
    requires Sweep(calls, limit) && Stays(calls, 0, key) && WholeCursors(calls)
    ensures exists k :: 0 <= k < |calls| && InPage(calls[k].page, key.runId)
    ensures forall j, k :: 0 <= j < k < |calls| ==> !(InPage(calls[j].page, key.runId) && InPage(calls[k].page, key.runId))
  {
    ListedAtLeastOnce(calls, limit, key);
    forall j, k | 0 <= j < k < |calls| && InPage(calls[j].page, key.runId)
      ensures !InPage(calls[k].page, key.runId)
    {
      NotListedAgain(calls, limit, key, j, k);
    }
  }

  /** A staying row that ends a page with a fraction of a millisecond is listed again. */
  lemma FractionListedAgain(calls: seq<Call>, limit: int, j: nat)
    requires Sweep(calls, limit) && j < |calls| && calls[j].page != []
    requires var last := calls[j].page[|calls[j].page| - 1]; !WholeMillisecond(last) && Stays(calls, 0, Key(last))
    ensures var last := calls[j].page[|calls[j].page| - 1];
            InPage(calls[j].page, last.runId) && exists k :: j < k < |calls| && InPage(calls[k].page, last.runId)
  {
    var last := calls[j].page[|calls[j].page| - 1];
    assert j + 1 < |calls| && Continues(calls, j);
    assert Stays(calls, j + 1, Key(last));
    var k := ListedFrom(calls, limit, j + 1, Key(last));
  }

  /**
   When every listed run stays, a completed sweep lists each of them exactly once if and
   only if the rows that end its pages have whole-millisecond timestamps.
   */
  lemma ExactlyOnceIffWhole(calls: seq<Call>, limit: int)
    requires Sweep(calls, limit)
    requires forall k, i :: 0 <= k < |calls| && 0 <= i < |calls[k].page| ==> Stays(calls, 0, Key(calls[k].page[i]))
    ensures WholeCursors(calls) <==>
            forall key, j, k :: Stays(calls, 0, key) && 0 <= j < k < |calls| ==>
              !(InPage(calls[j].page, key.runId) && InPage(calls[k].page, key.runId))
  {
    if WholeCursors(calls) {
      forall key, j, k | Stays(calls, 0, key) && 0 <= j < k < |calls|
        ensures !(InPage(calls[j].page, key.runId) && InPage(calls[k].page, key.runId))
      {
        ListedExactlyOnce(calls, limit, key);
      }
    } else {
      var j :| 0 <= j < |calls| && calls[j].page != [] && !WholeMillisecond(calls[j].page[|calls[j].page| - 1]);
      var last := calls[j].page[|calls[j].page| - 1];
      FractionListedAgain(calls, limit, j);
      var k :| j < k < |calls| && InPage(calls[k].page, last.runId);
      assert Stays(calls, 0, Key(last));
      assert InPage(calls[j].page, Key(last).runId) && InPage(calls[k].page, Key(last).runId);
    }
  }
}
