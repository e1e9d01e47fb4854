/**
 Pages of the run table in the order of (updated_at, run_id), and the cursor that a
 reconciler keeps between two pages.

 A column holds microseconds; the cursor is a JavaScript date, which holds whole
 milliseconds. A cursor therefore never lies behind the row it was taken from, and it
 lies before that row when the row's timestamp has a fraction of a millisecond.
 */
module Pages {
  import opened Wrappers
  import opened Lexicographic
  import opened WorkflowTables

  datatype Cursor = Cursor(updatedAt: int, runId: string)

  /** A microsecond timestamp after a round trip through a date. */
  function ToDate(timestamp: int): (date: int)
    ensures date <= timestamp < date + 1000
    ensures date == timestamp <==> timestamp % 1000 == 0
  {
    timestamp - timestamp % 1000
  }

  function Codes(text: string): (codes: seq<int>)
    ensures |codes| == |text| && forall i :: 0 <= i < |text| ==> codes[i] == text[i] as int
  {
    seq(|text|, i requires 0 <= i < |text| => text[i] as int)
  }

  /** Strings in the order of their characters. */
  predicate StringLess(a: string, b: string) {
    Less(Codes(a), Codes(b))
  }

  lemma StringLessTotal(a: string, b: string)
    ensures a == b || StringLess(a, b) || StringLess(b, a)
    ensures !StringLess(a, a)
  {
    LessTotal(Codes(a), Codes(b));
    LessStrict(Codes(a), Codes(a));
    if Codes(a) == Codes(b) {
      assert forall i :: 0 <= i < |a| ==> a[i] as int == Codes(b)[i];
      assert a == b;
    }
  }

  lemma StringLessTransitive(a: string, b: string, c: string)
    requires StringLess(a, b) && StringLess(b, c)
    ensures StringLess(a, c)
  {
    LessTransitive(Codes(a), Codes(b), Codes(c));
  }

  predicate KeyLess(a: Cursor, b: Cursor) {
    a.updatedAt < b.updatedAt || (a.updatedAt == b.updatedAt && StringLess(a.runId, b.runId))
  }

  /** The sort key of a row. */
  function Key(run: Run): Cursor {
    Cursor(run.updatedAt, run.runId)
  }

  /** The cursor taken from a row. */
  function CursorAt(run: Run): Cursor {
    Cursor(ToDate(run.updatedAt), run.runId)
  }

  predicate Before(a: Run, b: Run) {
    KeyLess(Key(a), Key(b))
  }

  lemma KeyLessTotal(a: Cursor, b: Cursor)
    ensures a == b || KeyLess(a, b) || KeyLess(b, a)
    ensures !KeyLess(a, a)
  {
    StringLessTotal(a.runId, b.runId);
    StringLessTotal(a.runId, a.runId);
  }

  lemma KeyLessTransitive(a: Cursor, b: Cursor, c: Cursor)
    requires KeyLess(a, b) && KeyLess(b, c)
    ensures KeyLess(a, c)
  {
    if a.updatedAt == b.updatedAt == c.updatedAt {
      StringLessTransitive(a.runId, b.runId, c.runId);
    }
  }

  /** The order of rows: by timestamp, and under one timestamp by the first code of the ids that differs. */
  lemma BeforeExactly(a: Run, b: Run)
    ensures Before(a, b) <==>
            || a.updatedAt < b.updatedAt
            || (a.updatedAt == b.updatedAt && exists k: nat :: FirstDiffers(Codes(a.runId), Codes(b.runId), k))
  {
    LessExactly(Codes(a.runId), Codes(b.runId));
  }

  /** A page goes up in time. */
  lemma PageGoesUp(t: Tables, status: RunStatus, limit: int, cursor: Option<Cursor>, page: seq<Run>, i: nat, j: nat)
    requires IsPage(t, status, limit, cursor, page) && i < j < |page|
    ensures page[i].updatedAt <= page[j].updatedAt && page[i].status == status
    ensures cursor.Some? ==> cursor.value.updatedAt <= page[i].updatedAt
  {
    assert Before(page[i], page[j]);
    assert Listed(t, page[i].runId, status, cursor);
  }

  predicate Past(run: Run, cursor: Option<Cursor>) {
    cursor.Some? ==> KeyLess(cursor.value, Key(run))
  }

  /** The rows a listing ranges over. */
  predicate Listed(t: Tables, id: string, status: RunStatus, cursor: Option<Cursor>) {
    id in t.runs && t.runs[id].status == status && Past(t.runs[id], cursor)
  }

  predicate InPage(page: seq<Run>, id: string) {
    exists i :: 0 <= i < |page| && page[i].runId == id
  }

  /**
   `page` is the listing: rows of the table in strictly increasing order, at most
   `limit`, and every row left out comes after a full page.
   */
  ghost predicate IsPage(t: Tables, status: RunStatus, limit: int, cursor: Option<Cursor>, page: seq<Run>) {
    && |page| <= limit
    && (forall i :: 0 <= i < |page| ==> Listed(t, page[i].runId, status, cursor) && page[i] == t.runs[page[i].runId])
    && (forall i, j :: 0 <= i < j < |page| ==> Before(page[i], page[j]))
    && (forall id :: Listed(t, id, status, cursor) && !InPage(page, id) ==>
          |page| == limit && forall i :: 0 <= i < |page| ==> Before(page[i], t.runs[id]))
  }

  /** The rows selected one by one, smallest first, are the page. */
  lemma PageOfIds(t: Tables, status: RunStatus, limit: int, cursor: Option<Cursor>, ids: seq<string>, page: seq<Run>)
    requires |page| == |ids| <= limit
    requires forall i :: 0 <= i < |ids| ==> Listed(t, ids[i], status, cursor) && page[i] == t.runs[ids[i]] && page[i].runId == ids[i]
    requires forall i, j :: 0 <= i < j < |ids| ==> Before(page[i], page[j])
    requires forall id :: Listed(t, id, status, cursor) && id !in ids ==>
               |ids| == limit && forall i :: 0 <= i < |ids| ==> Before(page[i], t.runs[id])
    ensures IsPage(t, status, limit, cursor, page)
  {
    assert forall i :: 0 <= i < |ids| ==> page[i].runId == ids[i];
    forall id | id in ids ensures InPage(page, id) {
      var i :| 0 <= i < |ids| && ids[i] == id;
      assert page[i].runId == id;
    }
  }

  lemma FirstExists(runs: map<string, Run>, waiting: set<string>)
    requires waiting != {} && waiting <= runs.Keys
    requires forall id :: id in runs ==> runs[id].runId == id
    ensures exists x :: x in waiting && forall w :: w in waiting && w != x ==> Before(runs[x], runs[w])
  {
    var x :| x in waiting;
    var rest := waiting - {x};
    if rest == {} {
      assert waiting == {x};
    } else {
      FirstExists(runs, rest);
      var y :| y in rest && forall w :: w in rest && w != y ==> Before(runs[y], runs[w]);
      KeyLessTotal(Key(runs[x]), Key(runs[y]));
      var z := if Before(runs[x], runs[y]) then x else y;
      forall w | w in waiting && w != z ensures Before(runs[z], runs[w]) {
        if z == x && w != y {
          KeyLessTransitive(Key(runs[x]), Key(runs[y]), Key(runs[w]));
        }
      }
    }
  }
}
