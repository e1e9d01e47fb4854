/**
 Sweeps over a run table that does not change. The scan of the running rows and the limit
 decide where every page starts and ends, so they decide whether a sweep completes, how
 many calls it takes, and whether its pages put together are the scan.
 */
module StaticSweeps {
  import opened Wrappers
  import opened WorkflowTables
  import opened Pages
  import opened ReconcilerSweep

  ghost predicate Sorted(rows: seq<Run>) {
    forall i, j :: 0 <= i < j < |rows| ==> Before(rows[i], rows[j])
  }

  /** The rows of `t` past the cursor, in order. */
  ghost predicate Remaining(t: Tables, cursor: Option<Cursor>, rest: seq<Run>) {
    && Sorted(rest)
    && (forall i :: 0 <= i < |rest| ==> Listed(t, rest[i].runId, RunStatus.Running, cursor) && rest[i] == t.runs[rest[i].runId])
    && (forall id :: Listed(t, id, RunStatus.Running, cursor) ==> InPage(rest, id))
  }

  /** All running rows in order. */
  ghost predicate IsScan(t: Tables, all: seq<Run>) {
    Remaining(t, None, all)
  }

  /** The calls of a sweep, completed or not, over a table that does not change. */
  ghost predicate Static(calls: seq<Call>, limit: int, t: Tables) {
    Underway(calls, limit) && forall k :: 0 <= k < |calls| ==> calls[k].tables == t
  }

  function Least(a: int, b: int): int {
    if a <= b then a else b
  }

  // ----------------------------------------------------------- pages are prefixes

  lemma BeforeIrreflexive(a: Run, b: Run)
    requires Before(a, b)
    ensures a != b && !Before(b, a)
  {
    KeyLessTotal(Key(a), Key(a));
    if Before(b, a) {
      KeyLessTransitive(Key(a), Key(b), Key(a));
    }
  }

  ghost predicate SkipsNothing(page: seq<Run>, rest: seq<Run>) {
    && Sorted(page) && Sorted(rest)
    && (forall x :: x in page ==> x in rest)
    && (forall y :: y in rest ==> y in page || forall x :: x in page ==> Before(x, y))
  }

  lemma HeadsAgree(page: seq<Run>, rest: seq<Run>)
    requires SkipsNothing(page, rest) && page != []
    ensures rest != [] && page[0] == rest[0]
  {
    var p := page[0];
    assert p in page && p in rest;
    var r := rest[0];
    assert r in rest;
    assert r == p || Before(p, r);
    if r != p {
      BeforeIrreflexive(p, r);
    }
  }

  /** A sorted selection that skips nothing is a prefix. */
  lemma {:induction false} SelectionIsPrefix(page: seq<Run>, rest: seq<Run>)
    requires SkipsNothing(page, rest)
    ensures page <= rest
  {
    if page != [] {
      HeadsAgree(page, rest);
      forall x | x in page[1..] ensures x in rest[1..] {
        BeforeIrreflexive(page[0], x);
        assert x in page && x in rest;
      }
      forall y | y in rest[1..] ensures y in page[1..] || forall x :: x in page[1..] ==> Before(x, y) {
        BeforeIrreflexive(rest[0], y);
        assert y in rest;
      }
      SelectionIsPrefix(page[1..], rest[1..]);
      assert page == [page[0]] + page[1..] && rest == [rest[0]] + rest[1..];
    }
  }

  /** A page is the front of the rows that remain. */
  lemma PageIsFront(t: Tables, limit: int, cursor: Option<Cursor>, page: seq<Run>, rest: seq<Run>)
    requires limit >= 0 && IsPage(t, RunStatus.Running, limit, cursor, page) && Remaining(t, cursor, rest)
    ensures page == rest[..Least(limit, |rest|)]
  {
    forall x | x in page ensures x in rest {
      assert Listed(t, x.runId, RunStatus.Running, cursor);
      var j :| 0 <= j < |rest| && rest[j].runId == x.runId;
    }
    forall y | y in rest && y !in page
      ensures |page| == limit && forall x :: x in page ==> Before(x, y)
    {
      assert Listed(t, y.runId, RunStatus.Running, cursor);
      assert !InPage(page, y.runId);
    }
    SelectionIsPrefix(page, rest);
    if |page| < |rest| {
      var next := rest[|page|];
      if next in page {
        var i :| 0 <= i < |page| && page[i] == next;
        assert page[i] == rest[i];
        BeforeIrreflexive(rest[i], next);
      }
      assert next !in page;
    }
  }

  /** The front of the rows that remain is a page. */
  lemma FrontIsPage(t: Tables, limit: int, cursor: Option<Cursor>, page: seq<Run>, rest: seq<Run>)
    requires limit >= 1 && Remaining(t, cursor, rest) && page == rest[..Least(limit, |rest|)]
    ensures IsPage(t, RunStatus.Running, limit, cursor, page)
  {
    forall id | Listed(t, id, RunStatus.Running, cursor) && !InPage(page, id)
      ensures |page| == limit && forall i :: 0 <= i < |page| ==> Before(page[i], t.runs[id])
    {
      var j :| 0 <= j < |rest| && rest[j].runId == id;
      assert forall i :: 0 <= i < |page| ==> page[i] == rest[i] && page[i].runId != id;
    }
  }

  // --------------------------------------------------------------------- the walk

  /** The first row from `i` on that the cursor has not passed. */
  function FirstPast(all: seq<Run>, cursor: Option<Cursor>, i: nat): (from: nat)
    requires i <= |all|
    ensures i <= from <= |all|
    decreases |all| - i
  {
    if i == |all| || Past(all[i], cursor) then i else FirstPast(all, cursor, i + 1)
  }

  function PageEnd(all: seq<Run>, limit: int, from: nat): (end: nat)
    requires limit >= 1 && from <= |all|
    ensures from <= end <= |all| && (from < |all| ==> from < end)
  {
    Least(from + limit, |all|)
  }

  /** Where in the scan the next page starts, given where a page starts. */
  function Next(all: seq<Run>, limit: int, from: nat): (next: nat)
    requires limit >= 1 && from <= |all|
    ensures next <= |all|
  {
    if from == |all| then from else FirstPast(all, Some(CursorAt(all[PageEnd(all, limit, from) - 1])), 0)
  }

  /** Where in the scan page `k` starts, by the scan and the limit alone. */
  function Start(all: seq<Run>, limit: int, k: nat): (from: nat)
    requires limit >= 1
    ensures from <= |all|
  {
    if k == 0 then 0 else Next(all, limit, Start(all, limit, k - 1))
  }

  function PageAt(all: seq<Run>, limit: int, k: nat): seq<Run>
    requires limit >= 1
  {
    all[Start(all, limit, k)..PageEnd(all, limit, Start(all, limit, k))]
  }

  function CursorOf(all: seq<Run>, limit: int, k: nat): Option<Cursor>
    requires limit >= 1
  {
    if k == 0 then None else NextCursor(PageAt(all, limit, k - 1))
  }

  lemma {:induction false} FirstPastSplits(all: seq<Run>, cursor: Option<Cursor>, i: nat)
    requires Sorted(all) && i <= |all|
    ensures var from := FirstPast(all, cursor, i);
            && (forall j :: i <= j < from ==> !Past(all[j], cursor))
            && (forall j :: from <= j < |all| ==> Past(all[j], cursor))
    decreases |all| - i
  {
    if i < |all| {
      if Past(all[i], cursor) {
        forall j | i <= j < |all| ensures Past(all[j], cursor) {
          if cursor.Some? && i < j {
            KeyLessTransitive(cursor.value, Key(all[i]), Key(all[j]));
          }
        }
      } else {
        FirstPastSplits(all, cursor, i + 1);
      }
    }
  }

  /** A row past the cursor lies in the scan from the first row past it. */
  lemma RestHolds(t: Tables, all: seq<Run>, cursor: Option<Cursor>, from: nat, rest: seq<Run>, id: string)
    requires IsScan(t, all) && from == FirstPast(all, cursor, 0) && rest == all[from..]
    requires Listed(t, id, RunStatus.Running, cursor)
    ensures InPage(rest, id)
  {
    FirstPastSplits(all, cursor, 0);
    assert Listed(t, id, RunStatus.Running, None);
    var i :| 0 <= i < |all| && all[i].runId == id;
    assert i >= from;
    assert rest[i - from].runId == id;
  }

  lemma RestIsListed(t: Tables, all: seq<Run>, cursor: Option<Cursor>, from: nat, rest: seq<Run>, i: nat)
    requires IsScan(t, all) && from == FirstPast(all, cursor, 0) && rest == all[from..] && i < |rest|
    ensures Listed(t, rest[i].runId, RunStatus.Running, cursor) && rest[i] == t.runs[rest[i].runId]
  {
    FirstPastSplits(all, cursor, 0);
    assert rest[i] == all[from + i] && Listed(t, all[from + i].runId, RunStatus.Running, None);
  }

  /** What remains past a cursor is the scan from the first row past it. */
  lemma RemainingPast(t: Tables, all: seq<Run>, cursor: Option<Cursor>, from: nat, rest: seq<Run>)
    requires IsScan(t, all) && from == FirstPast(all, cursor, 0) && rest == all[from..]
    ensures Remaining(t, cursor, rest)
  {
    forall i | 0 <= i < |rest| ensures Listed(t, rest[i].runId, RunStatus.Running, cursor) && rest[i] == t.runs[rest[i].runId] {
      RestIsListed(t, all, cursor, from, rest, i);
    }
    forall id | Listed(t, id, RunStatus.Running, cursor) ensures InPage(rest, id) {
      RestHolds(t, all, cursor, from, rest, id);
    }
  }

  /** The page behind a cursor, by the scan and the limit alone. */
  function Slice(all: seq<Run>, limit: int, cursor: Option<Cursor>): seq<Run>
    requires limit >= 1
  {
    var from := FirstPast(all, cursor, 0);
    all[from..PageEnd(all, limit, from)]
  }

  lemma SliceFront(all: seq<Run>, limit: int, from: nat)
    requires limit >= 1 && from <= |all|
    ensures all[from..PageEnd(all, limit, from)] == all[from..][..Least(limit, |all[from..]|)]
  {
  }

  lemma PageIsSlice(t: Tables, all: seq<Run>, limit: int, cursor: Option<Cursor>, page: seq<Run>)
    requires limit >= 1 && IsScan(t, all) && IsPage(t, RunStatus.Running, limit, cursor, page)
    ensures page == Slice(all, limit, cursor)
  {
    var from := FirstPast(all, cursor, 0);
    RemainingPast(t, all, cursor, from, all[from..]);
    PageIsFront(t, limit, cursor, page, all[from..]);
    SliceFront(all, limit, from);
  }

  lemma SliceIsPage(t: Tables, all: seq<Run>, limit: int, cursor: Option<Cursor>)
    requires limit >= 1 && IsScan(t, all)
    ensures IsPage(t, RunStatus.Running, limit, cursor, Slice(all, limit, cursor))
  {
    var from := FirstPast(all, cursor, 0);
    RemainingPast(t, all, cursor, from, all[from..]);
    SliceFront(all, limit, from);
    FrontIsPage(t, limit, cursor, Slice(all, limit, cursor), all[from..]);
  }

  lemma StartIsFirstPast(all: seq<Run>, limit: int, k: nat)
    requires limit >= 1 && (k > 0 ==> Start(all, limit, k - 1) < |all|)
    ensures Start(all, limit, k) == FirstPast(all, CursorOf(all, limit, k), 0)
  {
    if k > 0 {
      CursorIsLast(all, limit, k - 1, Start(all, limit, k - 1));
    }
  }

  lemma CursorIsLast(all: seq<Run>, limit: int, k: nat, from: nat)
    requires limit >= 1 && from == Start(all, limit, k) < |all|
    ensures CursorOf(all, limit, k + 1) == Some(CursorAt(all[PageEnd(all, limit, from) - 1]))
  {
    var page := PageAt(all, limit, k);
    assert page[|page| - 1] == all[PageEnd(all, limit, from) - 1];
  }

  /** The page behind a cursor of the walk is the page of the walk. */
  lemma WalkSlice(all: seq<Run>, limit: int, k: nat)
    requires limit >= 1 && (k > 0 ==> Start(all, limit, k - 1) < |all|)
    ensures Slice(all, limit, CursorOf(all, limit, k)) == PageAt(all, limit, k)
  {
    StartIsFirstPast(all, limit, k);
  }

  predicate FollowsAt(calls: seq<Call>, all: seq<Run>, limit: int, k: nat)
    requires limit >= 1 && k < |calls|
  {
    calls[k].cursor == CursorOf(all, limit, k) && calls[k].page == PageAt(all, limit, k)
  }

  /** The calls list the pages of the walk, and go on only after pages with rows. */
  predicate Follows(calls: seq<Call>, all: seq<Run>, limit: int)
    requires limit >= 1
  {
    && |calls| >= 1
    && (forall k :: 0 <= k < |calls| ==> FollowsAt(calls, all, limit, k))
    && (forall k :: 0 <= k < |calls| - 1 ==> Start(all, limit, k) < |all|)
  }

  /** Call `k` lists the slice behind its cursor, taken from the page before. */
  predicate Linked(calls: seq<Call>, limit: int, all: seq<Run>, k: nat)
    requires limit >= 1 && k < |calls|
  {
    && calls[k].page == Slice(all, limit, calls[k].cursor)
    && if k == 0 then calls[k].cursor == None
       else calls[k - 1].page != [] && calls[k].cursor == NextCursor(calls[k - 1].page)
  }

  lemma StaticLinks(calls: seq<Call>, limit: int, t: Tables, all: seq<Run>, k: nat)
    requires limit >= 1 && Static(calls, limit, t) && IsScan(t, all) && k < |calls|
    ensures Linked(calls, limit, all, k)
  {
    PageIsSlice(t, all, limit, calls[k].cursor, calls[k].page);
    if k > 0 {
      assert Continues(calls, k - 1);
    }
  }

  lemma PageIsEmpty(all: seq<Run>, limit: int, k: nat)
    requires limit >= 1
    ensures PageAt(all, limit, k) == [] <==> Start(all, limit, k) == |all|
  {
  }

  /** A page of the walk with rows leads to the next cursor of the walk. */
  lemma WalkGoesOn(all: seq<Run>, limit: int, k: nat, page: seq<Run>)
    requires limit >= 1 && page == PageAt(all, limit, k) && page != []
    ensures Start(all, limit, k) < |all| && NextCursor(page) == CursorOf(all, limit, k + 1)
  {
  }

  lemma LinkFollows(calls: seq<Call>, limit: int, all: seq<Run>, k: nat)
    requires limit >= 1 && k < |calls| && Linked(calls, limit, all, k)
    requires k > 0 ==> calls[k - 1].page == PageAt(all, limit, k - 1)
    ensures FollowsAt(calls, all, limit, k) && (k > 0 ==> Start(all, limit, k - 1) < |all|)
  {
    if k > 0 {
      WalkGoesOn(all, limit, k - 1, calls[k - 1].page);
    }
    WalkSlice(all, limit, k);
  }

  lemma {:induction false} LinksFollow(calls: seq<Call>, limit: int, all: seq<Run>, k: nat)
    requires limit >= 1 && k < |calls| && forall j :: 0 <= j < |calls| ==> Linked(calls, limit, all, j)
    ensures FollowsAt(calls, all, limit, k) && (k > 0 ==> Start(all, limit, k - 1) < |all|)
  {
    if k > 0 {
      LinksFollow(calls, limit, all, k - 1);
    }
    LinkFollows(calls, limit, all, k);
  }

  /** Every call of a sweep over a static table lists the page that the walk says. */
  lemma CallsFollowWalk(calls: seq<Call>, limit: int, t: Tables, all: seq<Run>)
    requires limit >= 1 && Static(calls, limit, t) && IsScan(t, all)
    ensures Follows(calls, all, limit)
    ensures Sweep(calls, limit) <==> Start(all, limit, |calls| - 1) == |all|
  {
    StaticFollows(calls, limit, t, all);
    assert FollowsAt(calls, all, limit, |calls| - 1);
    PageIsEmpty(all, limit, |calls| - 1);
  }

  lemma StaticFollows(calls: seq<Call>, limit: int, t: Tables, all: seq<Run>)
    requires limit >= 1 && Static(calls, limit, t) && IsScan(t, all)
    ensures Follows(calls, all, limit)
  {
    forall k | 0 <= k < |calls| ensures Linked(calls, limit, all, k) {
      StaticLinks(calls, limit, t, all, k);
    }
    CallsFollow(calls, limit, all);
  }

  lemma CallsFollow(calls: seq<Call>, limit: int, all: seq<Run>)
    requires limit >= 1 && |calls| >= 1 && forall j :: 0 <= j < |calls| ==> Linked(calls, limit, all, j)
    ensures Follows(calls, all, limit)
  {
    forall k | 0 <= k < |calls| ensures FollowsAt(calls, all, limit, k) {
      LinksFollow(calls, limit, all, k);
    }
    forall k | 0 <= k < |calls| - 1 ensures Start(all, limit, k) < |all| {
      LinksFollow(calls, limit, all, k + 1);
    }
  }

  // ------------------------------------------------------------------- completion

  /** The page that starts where page `k` does reaches the youngest row, and that row is whole. */
  predicate Reaches(all: seq<Run>, limit: int, k: nat)
    requires limit >= 1
  {
    all != [] && Start(all, limit, k) + limit >= |all| && WholeMillisecond(all[|all| - 1])
  }

  /** One of as many pages as there are rows reaches a whole youngest row. */
  predicate Completes(all: seq<Run>, limit: int)
    requires limit >= 1
  {
    all == [] || exists k :: 0 <= k < |all| && Reaches(all, limit, k)
  }

  /** Past a row come the later rows, and the row itself unless it is whole. */
  lemma PastRow(all: seq<Run>, e: nat)
    requires Sorted(all) && 1 <= e <= |all|
    ensures var next := FirstPast(all, Some(CursorAt(all[e - 1])), 0);
            next <= e && (next == e <==> WholeMillisecond(all[e - 1]))
  {
    var cursor := Some(CursorAt(all[e - 1]));
    var next := FirstPast(all, cursor, 0);
    FirstPastSplits(all, cursor, 0);
    KeyLessTotal(Key(all[e - 1]), Key(all[e - 1]));
    if e < |all| {
      assert Before(all[e - 1], all[e]);
      CursorNotPast(all[e - 1], all[e]);
      assert Past(all[e], cursor);
    }
    if WholeMillisecond(all[e - 1]) {
      assert CursorAt(all[e - 1]) == Key(all[e - 1]);
      assert !Past(all[e - 1], cursor);
    } else {
      assert Past(all[e - 1], cursor);
    }
  }

  lemma NextEnds(all: seq<Run>, limit: int, from: nat)
    requires limit >= 1 && Sorted(all) && from < |all|
    ensures Next(all, limit, from) <= PageEnd(all, limit, from)
    ensures Next(all, limit, from) == PageEnd(all, limit, from) <==> WholeMillisecond(all[PageEnd(all, limit, from) - 1])
  {
    PastRow(all, PageEnd(all, limit, from));
  }

  /** The walk arrives behind the last row exactly when it reaches a whole youngest row before. */
  lemma {:induction false} EndIsReached(all: seq<Run>, limit: int, k: nat)
    requires limit >= 1 && Sorted(all) && Start(all, limit, k) == |all| && all != []
    ensures exists j :: 0 <= j < k && Reaches(all, limit, j)
  {
    var from := Start(all, limit, k - 1);
    if from == |all| {
      EndIsReached(all, limit, k - 1);
    } else {
      NextEnds(all, limit, from);
      assert Reaches(all, limit, k - 1);
    }
  }

  lemma ReachedIsEnd(all: seq<Run>, limit: int, k: nat)
    requires limit >= 1 && Sorted(all) && Reaches(all, limit, k)
    ensures Start(all, limit, k + 1) == |all|
  {
    var from := Start(all, limit, k);
    if from < |all| {
      NextEnds(all, limit, from);
    }
  }

  lemma {:induction false} FirstEnd(all: seq<Run>, limit: int, k: nat) returns (m: nat)
    requires limit >= 1 && Start(all, limit, k) == |all|
    ensures m <= k && Start(all, limit, m) == |all| && forall j :: 0 <= j < m ==> Start(all, limit, j) < |all|
  {
    if j :| 0 <= j < k && Start(all, limit, j) == |all| {
      m := FirstEnd(all, limit, j);
    } else {
      m := k;
    }
  }

  /** Equal starts have equal continuations. */
  lemma {:induction false} StartsRepeat(all: seq<Run>, limit: int, i: nat, j: nat, d: nat)
    requires limit >= 1 && Start(all, limit, i) == Start(all, limit, j)
    ensures Start(all, limit, i + d) == Start(all, limit, j + d)
  {
    if d > 0 {
      StartsRepeat(all, limit, i, j, d - 1);
    }
  }

  lemma StartsDiffer(all: seq<Run>, limit: int, m: nat, i: nat, j: nat)
    requires limit >= 1 && Start(all, limit, m) == |all| && (forall k :: 0 <= k < m ==> Start(all, limit, k) < |all|)
    requires i < j < m
    ensures Start(all, limit, i) != Start(all, limit, j)
  {
    if Start(all, limit, i) == Start(all, limit, j) {
      StartsRepeat(all, limit, i, j, m - j);
    }
  }

  function Starts(all: seq<Run>, limit: int, m: nat): set<int>
    requires limit >= 1
  {
    if m == 0 then {} else Starts(all, limit, m - 1) + {Start(all, limit, m - 1)}
  }

  lemma {:induction false} StartsAre(all: seq<Run>, limit: int, m: nat, x: int)
    requires limit >= 1 && x in Starts(all, limit, m)
    ensures exists j :: 0 <= j < m && Start(all, limit, j) == x
  {
    if x != Start(all, limit, m - 1) {
      StartsAre(all, limit, m - 1, x);
    }
  }

  lemma StartIsNew(all: seq<Run>, limit: int, m: nat, k: nat)
    requires limit >= 1 && Start(all, limit, m) == |all| && (forall j :: 0 <= j < m ==> Start(all, limit, j) < |all|)
    requires k < m
    ensures Start(all, limit, k) !in Starts(all, limit, k)
  {
    if Start(all, limit, k) in Starts(all, limit, k) {
      StartsAre(all, limit, k, Start(all, limit, k));
      var j :| 0 <= j < k && Start(all, limit, j) == Start(all, limit, k);
      StartsDiffer(all, limit, m, j, k);
    }
  }

  lemma {:induction false} StartsAreMany(all: seq<Run>, limit: int, m: nat, k: nat)
    requires limit >= 1 && Start(all, limit, m) == |all| && (forall j :: 0 <= j < m ==> Start(all, limit, j) < |all|)
    requires k <= m
    ensures |Starts(all, limit, k)| == k && forall x :: x in Starts(all, limit, k) ==> 0 <= x < |all|
  {
    if k > 0 {
      StartsAreMany(all, limit, m, k - 1);
      StartIsNew(all, limit, m, k - 1);
    }
  }

  lemma {:induction false} SetOfSmall(xs: set<int>, n: nat)
    requires forall x :: x in xs ==> 0 <= x < n
    ensures |xs| <= n
  {
    if n == 0 {
      assert forall x: int :: x !in xs;
      assert xs == {};
    } else {
      SetOfSmall(xs - {n - 1}, n - 1);
    }
  }

  /** If the walk arrives at all, it does within as many pages as there are rows. */
  lemma ArrivesSoon(all: seq<Run>, limit: int, k: nat)
    requires limit >= 1 && Sorted(all) && Start(all, limit, k) == |all|
    ensures Completes(all, limit)
  {
    if all != [] {
      var m := FirstEnd(all, limit, k);
      StartsAreMany(all, limit, m, m);
      SetOfSmall(Starts(all, limit, m), |all|);
      EndIsReached(all, limit, m);
    }
  }

  function WalkCall(t: Tables, all: seq<Run>, limit: int, k: nat): Call
    requires limit >= 1
  {
    Call(t, CursorOf(all, limit, k), PageAt(all, limit, k))
  }

  /** The calls that the walk describes. */
  function WalkCalls(t: Tables, all: seq<Run>, limit: int, m: nat): (calls: seq<Call>)
    requires limit >= 1
    ensures |calls| == m + 1 && forall k :: 0 <= k <= m ==> calls[k] == WalkCall(t, all, limit, k)
  {
    seq(m + 1, k requires 0 <= k < m + 1 => WalkCall(t, all, limit, k))
  }

  lemma WalkContinues(t: Tables, all: seq<Run>, limit: int, k: nat, call: Call, next: Call)
    requires limit >= 1 && Start(all, limit, k) < |all|
    requires call == WalkCall(t, all, limit, k) && next == WalkCall(t, all, limit, k + 1)
    ensures call.page != [] && next.cursor == NextCursor(call.page)
  {
    PageIsEmpty(all, limit, k);
    WalkGoesOn(all, limit, k, call.page);
  }

  lemma WalkIsSweep(t: Tables, all: seq<Run>, limit: int, m: nat, calls: seq<Call>)
    requires limit >= 1 && IsScan(t, all) && calls == WalkCalls(t, all, limit, m)
    requires Start(all, limit, m) == |all| && forall j :: 0 <= j < m ==> Start(all, limit, j) < |all|
    ensures Static(calls, limit, t) && Sweep(calls, limit)
  {
    PageIsEmpty(all, limit, m);
    forall k | 0 <= k < |calls| ensures IsPage(calls[k].tables, RunStatus.Running, limit, calls[k].cursor, calls[k].page) {
      WalkSlice(all, limit, k);
      SliceIsPage(t, all, limit, CursorOf(all, limit, k));
    }
    forall k | 0 <= k < |calls| - 1 ensures Continues(calls, k) {
      WalkContinues(t, all, limit, k, calls[k], calls[k + 1]);
    }
  }

  lemma SweepCompletes(calls: seq<Call>, t: Tables, all: seq<Run>, limit: int)
    requires limit >= 1 && IsScan(t, all) && Static(calls, limit, t) && Sweep(calls, limit)
    ensures Completes(all, limit)
  {
    CallsFollowWalk(calls, limit, t, all);
    ArrivesSoon(all, limit, |calls| - 1);
  }

  lemma {:induction false} EndStays(all: seq<Run>, limit: int, k: nat, m: nat)
    requires limit >= 1 && Start(all, limit, k) == |all| && k <= m
    ensures Start(all, limit, m) == |all|
  {
    if k < m {
      EndStays(all, limit, k, m - 1);
    }
  }

  lemma ArrivesBy(all: seq<Run>, limit: int)
    requires limit >= 1 && Sorted(all) && Completes(all, limit)
    ensures Start(all, limit, |all|) == |all|
  {
    if all != [] {
      var j :| 0 <= j < |all| && Reaches(all, limit, j);
      ReachedIsEnd(all, limit, j);
      EndStays(all, limit, j + 1, |all|);
    }
  }

  ghost predicate CanComplete(t: Tables, limit: int) {
    exists calls: seq<Call> :: Static(calls, limit, t) && Sweep(calls, limit)
  }

  /**
   On a table that does not change, a sweep can complete exactly when the walk of the scan
   reaches a whole youngest row.
   */
  lemma SweepCompletesExactly(t: Tables, all: seq<Run>, limit: int)
    requires limit >= 1 && IsScan(t, all)
    ensures CanComplete(t, limit) <==> Completes(all, limit)
  {
    if calls: seq<Call> :| Static(calls, limit, t) && Sweep(calls, limit) {
      SweepCompletes(calls, t, all, limit);
    }
    if Completes(all, limit) {
      ArrivesBy(all, limit);
      var m := FirstEnd(all, limit, |all|);
      WalkIsSweep(t, all, limit, m, WalkCalls(t, all, limit, m));
    }
  }

  /** Where a sweep can complete, it does within one call more than there are rows. */
  lemma SweepEndsSoon(calls: seq<Call>, limit: int, t: Tables, all: seq<Run>)
    requires limit >= 1 && Static(calls, limit, t) && IsScan(t, all) && Completes(all, limit)
    ensures |calls| <= |all| + 1 && (|calls| == |all| + 1 ==> Sweep(calls, limit))
  {
    CallsFollowWalk(calls, limit, t, all);
    ArrivesBy(all, limit);
    FollowsToEnd(calls, all, limit, |all|);
  }

  lemma FollowsToEnd(calls: seq<Call>, all: seq<Run>, limit: int, m: nat)
    requires limit >= 1 && Follows(calls, all, limit) && Start(all, limit, m) == |all|
    ensures |calls| <= m + 1
  {
  }

  /** In particular no sweep completes while the youngest row has a fraction of a millisecond. */
  lemma FractionKeepsSweepOpen(calls: seq<Call>, limit: int, t: Tables, all: seq<Run>)
    requires limit >= 1 && Static(calls, limit, t) && IsScan(t, all) && all != [] && !WholeMillisecond(all[|all| - 1])
    ensures !Sweep(calls, limit)
  {
    if Sweep(calls, limit) {
      SweepCompletes(calls, t, all, limit);
    }
  }

  /**
   A whole youngest row is not enough: an older row with a fraction that ends the first
   page hides it, and a sweep of single rows lists the older row for ever.
   */
  lemma OlderFractionHidesYoungest(calls: seq<Call>, t: Tables, older: Run, youngest: Run, k: nat)
    requires Static(calls, 1, t) && IsScan(t, [older, youngest])
    requires older.updatedAt == 1 && youngest.updatedAt == 2000 && k < |calls|
    ensures calls[k].page == [older] && !Sweep(calls, 1)
  {
    var all := [older, youngest];
    StaticFollows(calls, 1, t, all);
    OlderIsListed(calls, older, youngest, all, k);
    OlderIsListed(calls, older, youngest, all, |calls| - 1);
  }

  lemma OlderIsListed(calls: seq<Call>, older: Run, youngest: Run, all: seq<Run>, k: nat)
    requires older.updatedAt == 1 && all == [older, youngest] && Follows(calls, all, 1) && k < |calls|
    ensures calls[k].page == [older]
  {
    StaysAtOlder(older, youngest, all, k);
    assert FollowsAt(calls, all, 1, k);
  }

  lemma {:induction false} StaysAtOlder(older: Run, youngest: Run, all: seq<Run>, k: nat)
    requires older.updatedAt == 1 && all == [older, youngest]
    ensures Start(all, 1, k) == 0 && PageAt(all, 1, k) == [older]
  {
    if k > 0 {
      StaysAtOlder(older, youngest, all, k - 1);
      assert Past(older, Some(CursorAt(older)));
      assert all[PageEnd(all, 1, 0) - 1] == older;
    }
    assert all[0..1] == [older];
  }

  /**
   The smallest case: one running row, stamped one microsecond past a millisecond. The
   cursor taken from it lists the same row again, so the next page never comes up empty.
   */
  lemma OneFractionalRowComesBack(t: Tables, run: Run)
    requires t.runs == map[run.runId := run] && run.status.Running? && run.updatedAt == 1
    ensures IsPage(t, RunStatus.Running, 1, None, [run])
    ensures IsPage(t, RunStatus.Running, 1, NextCursor([run]), [run])
    ensures !IsPage(t, RunStatus.Running, 1, NextCursor([run]), [])
  {
    assert InPage([run], run.runId) by {
      assert [run][0].runId == run.runId;
    }
    assert Listed(t, run.runId, RunStatus.Running, NextCursor([run]));
    assert !InPage([], run.runId);
  }

  // ------------------------------------------------------------- whole slice ends

  /** The row that ends the `m`-th slice of the scan is stamped on a whole millisecond. */
  predicate WholeEnd(all: seq<Run>, limit: int, m: nat)
    requires limit >= 1
  {
    var from := m * limit;
    0 <= from < |all| ==> WholeMillisecond(all[Least(from + limit, |all|) - 1])
  }

  ghost predicate WholeEnds(all: seq<Run>, limit: int)
    requires limit >= 1
  {
    forall m: nat :: WholeEnd(all, limit, m)
  }

  lemma Multiple(m: nat, limit: int)
    requires limit >= 1
    ensures m * limit >= 0 && (m + 1) * limit == m * limit + limit
  {
  }

  /** As long as slice ends are whole, pages are consecutive slices. */
  lemma {:induction false} RegularStart(all: seq<Run>, limit: int, k: nat)
    requires limit >= 1 && Sorted(all) && forall m: nat :: m < k ==> WholeEnd(all, limit, m)
    ensures Start(all, limit, k) == Least(k * limit, |all|)
  {
    if k > 0 {
      RegularStart(all, limit, k - 1);
      Multiple(k - 1, limit);
      var from := Start(all, limit, k - 1);
      if from < |all| {
        assert WholeEnd(all, limit, k - 1);
        NextEnds(all, limit, from);
      }
    }
  }

  lemma RegularPage(all: seq<Run>, limit: int, k: nat)
    requires limit >= 1 && Sorted(all) && WholeEnds(all, limit)
    ensures k * limit >= 0 && PageAt(all, limit, k) == all[Least(k * limit, |all|)..Least(k * limit + limit, |all|)]
  {
    RegularStart(all, limit, k);
    Multiple(k, limit);
  }

  /** On whole slice ends, call `k` of a sweep lists the `k`-th slice of the scan. */
  lemma StaticPages(calls: seq<Call>, limit: int, t: Tables, all: seq<Run>, k: nat)
    requires limit >= 1 && Static(calls, limit, t) && IsScan(t, all) && WholeEnds(all, limit) && k < |calls|
    ensures k * limit >= 0 && calls[k].page == all[Least(k * limit, |all|)..Least(k * limit + limit, |all|)]
  {
    RegularPage(all, limit, k);
    StaticFollows(calls, limit, t, all);
    assert FollowsAt(calls, all, limit, k);
  }

  lemma WalkEnds(all: seq<Run>, limit: int, last: nat)
    requires limit >= 1 && Sorted(all) && WholeEnds(all, limit) && (last > 0 ==> Start(all, limit, last - 1) < |all|)
    ensures last * limit < |all| + limit
    ensures last * limit >= |all| <==> Start(all, limit, last) == |all|
  {
    RegularStart(all, limit, last);
    if last > 0 {
      RegularStart(all, limit, last - 1);
      Multiple(last - 1, limit);
    }
  }

  /**
   On whole slice ends every sweep ends: there is at most one call per page of rows and one
   more, and a call that comes after all rows finds nothing and completes the sweep.
   */
  lemma StaticSweepEnds(calls: seq<Call>, limit: int, t: Tables, all: seq<Run>)
    requires limit >= 1 && Static(calls, limit, t) && IsScan(t, all) && WholeEnds(all, limit)
    ensures (|calls| - 1) * limit < |all| + limit
    ensures (|calls| - 1) * limit >= |all| <==> Sweep(calls, limit)
  {
    CallsFollowWalk(calls, limit, t, all);
    WalkEnds(all, limit, |calls| - 1);
  }

  // ---------------------------------------------------------------- concatenation

  /** The pages of the calls put together. */
  function Concatenated(calls: seq<Call>): seq<Run> {
    if calls == [] then [] else Concatenated(calls[..|calls| - 1]) + calls[|calls| - 1].page
  }

  lemma SlicesJoin(all: seq<Run>, i: nat, j: nat)
    requires i <= j <= |all|
    ensures all[..i] + all[i..j] == all[..j]
  {
  }

  lemma ConcatenatedMore(calls: seq<Call>, k: nat)
    requires k < |calls|
    ensures Concatenated(calls[..k + 1]) == Concatenated(calls[..k]) + calls[k].page
  {
    assert calls[..k + 1][..k] == calls[..k];
  }

  lemma {:induction false} ConcatenatedPrefix(calls: seq<Call>, k: nat)
    requires k <= |calls|
    ensures Concatenated(calls[..k]) <= Concatenated(calls)
    decreases |calls| - k
  {
    if k == |calls| {
      assert calls[..k] == calls;
    } else {
      ConcatenatedPrefix(calls, k + 1);
      ConcatenatedMore(calls, k);
    }
  }

  /** The first `k` pages of the walk are consecutive slices. */
  predicate Consecutive(all: seq<Run>, limit: int, k: nat)
    requires limit >= 1
  {
    forall j :: 0 <= j < k ==> Joins(all, limit, j)
  }

  predicate Joins(all: seq<Run>, limit: int, j: nat)
    requires limit >= 1
  {
    Start(all, limit, j + 1) == PageEnd(all, limit, Start(all, limit, j))
  }

  /** While pages are consecutive slices, the pages so far are the front of the scan. */
  lemma {:induction false} FrontOfScan(calls: seq<Call>, limit: int, all: seq<Run>, k: nat)
    requires limit >= 1 && Follows(calls, all, limit) && k <= |calls| && Consecutive(all, limit, k)
    ensures Concatenated(calls[..k]) == all[..Start(all, limit, k)]
  {
    if k > 0 {
      FrontOfScan(calls, limit, all, k - 1);
      assert FollowsAt(calls, all, limit, k - 1) && Joins(all, limit, k - 1);
      ConcatenatedMore(calls, k - 1);
      SlicesJoin(all, Start(all, limit, k - 1), Start(all, limit, k));
    }
  }

  lemma RegularStep(all: seq<Run>, limit: int, j: nat)
    requires limit >= 1 && Sorted(all) && forall m: nat :: m <= j ==> WholeEnd(all, limit, m)
    ensures Joins(all, limit, j)
  {
    RegularStart(all, limit, j);
    RegularStart(all, limit, j + 1);
    Multiple(j, limit);
  }

  lemma RegularSteps(all: seq<Run>, limit: int, k: nat)
    requires limit >= 1 && Sorted(all) && forall m: nat :: m < k ==> WholeEnd(all, limit, m)
    ensures Consecutive(all, limit, k)
  {
    forall j | 0 <= j < k ensures Joins(all, limit, j) {
      RegularStep(all, limit, j);
    }
  }

  /** The page that first ends in a fraction: the page after it starts before that end. */
  predicate FallsBack(all: seq<Run>, limit: int, m: nat)
    requires limit >= 1
  {
    var from := Start(all, limit, m);
    && Consecutive(all, limit, m) && from < |all|
    && Start(all, limit, m + 1) < PageEnd(all, limit, from)
    && !WholeMillisecond(all[PageEnd(all, limit, from) - 1])
  }

  lemma FirstFraction(all: seq<Run>, limit: int, m: nat)
    requires limit >= 1 && Sorted(all) && !WholeEnd(all, limit, m) && forall j: nat :: j < m ==> WholeEnd(all, limit, j)
    ensures FallsBack(all, limit, m)
  {
    RegularStart(all, limit, m);
    NextEnds(all, limit, Start(all, limit, m));
    RegularSteps(all, limit, m);
  }

  lemma {:induction false} LeastFraction(all: seq<Run>, limit: int, m: nat) returns (least: nat)
    requires limit >= 1 && Sorted(all) && !WholeEnd(all, limit, m)
    ensures FallsBack(all, limit, least)
  {
    if j: nat :| j < m && !WholeEnd(all, limit, j) {
      least := LeastFraction(all, limit, j);
    } else {
      least := m;
      FirstFraction(all, limit, m);
    }
  }

  /** A completed sweep comes to every page of the walk that has rows, and goes on after it. */
  lemma SweepComesTo(calls: seq<Call>, limit: int, all: seq<Run>, m: nat)
    requires limit >= 1 && |calls| >= 1 && Start(all, limit, |calls| - 1) == |all| && Start(all, limit, m) < |all|
    ensures m + 1 < |calls|
  {
    if |calls| - 1 <= m {
      EndStays(all, limit, |calls| - 1, m);
    }
  }

  lemma PagesBefore(calls: seq<Call>, limit: int, all: seq<Run>, m: nat)
    requires limit >= 1 && Follows(calls, all, limit) && m + 1 < |calls| && Consecutive(all, limit, m)
    ensures Concatenated(calls[..m + 2]) == all[..PageEnd(all, limit, Start(all, limit, m))] + PageAt(all, limit, m + 1)
  {
    FrontOfScan(calls, limit, all, m);
    assert FollowsAt(calls, all, limit, m) && FollowsAt(calls, all, limit, m + 1);
    ConcatenatedMore(calls, m);
    ConcatenatedMore(calls, m + 1);
    SlicesJoin(all, Start(all, limit, m), PageEnd(all, limit, Start(all, limit, m)));
  }

  lemma NotTheScan(all: seq<Run>, pages: seq<Run>, end: nat, again: nat, to: nat)
    requires Sorted(all) && again < end <= |all| && again < to <= |all|
    requires all[..end] + all[again..to] <= pages
    ensures pages != all
  {
    var front := all[..end] + all[again..to];
    assert end < |front| && front[end] == all[again];
    if pages == all {
      assert all[end] == front[end];
      BeforeIrreflexive(all[again], all[end]);
    }
  }

  /** A row listed twice keeps the pages from being the scan. */
  lemma RelistedIsNoScan(calls: seq<Call>, limit: int, all: seq<Run>, m: nat)
    requires limit >= 1 && Follows(calls, all, limit) && Sorted(all) && m + 1 < |calls| && FallsBack(all, limit, m)
    ensures Concatenated(calls) != all
  {
    var end, again := PageEnd(all, limit, Start(all, limit, m)), Start(all, limit, m + 1);
    PagesBefore(calls, limit, all, m);
    ConcatenatedPrefix(calls, m + 2);
    NotTheScan(all, Concatenated(calls), end, again, PageEnd(all, limit, again));
  }

  lemma WholeIsScan(calls: seq<Call>, limit: int, all: seq<Run>)
    requires limit >= 1 && Follows(calls, all, limit) && Sorted(all) && WholeEnds(all, limit)
    requires Start(all, limit, |calls| - 1) == |all|
    ensures Concatenated(calls) == all
  {
    var last := |calls| - 1;
    RegularSteps(all, limit, last);
    FrontOfScan(calls, limit, all, last);
    assert FollowsAt(calls, all, limit, last);
    ConcatenatedMore(calls, last);
    assert calls[..last + 1] == calls && all[..|all|] == all && all + [] == all;
  }

  /**
   The pages of a completed sweep over a static table, put together, are the sorted scan
   exactly when every slice of the scan ends in a whole row.
   */
  lemma StaticSweepIsScanExactly(calls: seq<Call>, limit: int, t: Tables, all: seq<Run>)
    requires limit >= 1 && Static(calls, limit, t) && Sweep(calls, limit) && IsScan(t, all)
    ensures Concatenated(calls) == all <==> WholeEnds(all, limit)
  {
    CallsFollowWalk(calls, limit, t, all);
    if bad: nat :| !WholeEnd(all, limit, bad) {
      var m := LeastFraction(all, limit, bad);
      SweepComesTo(calls, limit, all, m);
      RelistedIsNoScan(calls, limit, all, m);
    } else {
      WholeIsScan(calls, limit, all);
    }
  }

  lemma WholePageEnd(calls: seq<Call>, limit: int, all: seq<Run>, k: nat)
    requires limit >= 1 && Follows(calls, all, limit) && Sorted(all) && WholeEnds(all, limit)
    requires k < |calls| && calls[k].page != []
    ensures WholeMillisecond(calls[k].page[|calls[k].page| - 1])
  {
    assert FollowsAt(calls, all, limit, k) && WholeEnd(all, limit, k);
    RegularStart(all, limit, k);
    assert calls[k].page[|calls[k].page| - 1] == all[PageEnd(all, limit, Start(all, limit, k)) - 1];
  }

  lemma FractionPageEnd(calls: seq<Call>, limit: int, all: seq<Run>, m: nat)
    requires limit >= 1 && Follows(calls, all, limit) && m < |calls| && FallsBack(all, limit, m)
    ensures !WholeCursors(calls)
  {
    assert FollowsAt(calls, all, limit, m);
    assert calls[m].page[|calls[m].page| - 1] == all[PageEnd(all, limit, Start(all, limit, m)) - 1];
  }

  /** Whether the rows that end the calls' pages are whole can be told from the scan. */
  lemma WholeCursorsExactly(calls: seq<Call>, limit: int, t: Tables, all: seq<Run>)
    requires limit >= 1 && Static(calls, limit, t) && Sweep(calls, limit) && IsScan(t, all)
    ensures WholeCursors(calls) <==> WholeEnds(all, limit)
  {
    CallsFollowWalk(calls, limit, t, all);
    if bad: nat :| !WholeEnd(all, limit, bad) {
      var m := LeastFraction(all, limit, bad);
      SweepComesTo(calls, limit, all, m);
      FractionPageEnd(calls, limit, all, m);
    } else {
      forall k | 0 <= k < |calls| && calls[k].page != [] ensures WholeMillisecond(calls[k].page[|calls[k].page| - 1]) {
        WholePageEnd(calls, limit, all, k);
      }
    }
  }

  lemma ListedStays(calls: seq<Call>, limit: int, t: Tables, k: nat, i: nat)
    requires Static(calls, limit, t) && k < |calls| && i < |calls[k].page|
    ensures Stays(calls, 0, Key(calls[k].page[i]))
  {
    assert Listed(t, calls[k].page[i].runId, RunStatus.Running, calls[k].cursor);
  }

  /** A completed sweep over a static table lists no row twice exactly when every slice of the scan ends in a whole row. */
  lemma ListedOnceExactly(calls: seq<Call>, limit: int, t: Tables, all: seq<Run>)
    requires limit >= 1 && Static(calls, limit, t) && Sweep(calls, limit) && IsScan(t, all)
    ensures WholeEnds(all, limit) <==>
            forall key, j, k :: Stays(calls, 0, key) && 0 <= j < k < |calls| ==>
              !(InPage(calls[j].page, key.runId) && InPage(calls[k].page, key.runId))
  {
    WholeCursorsExactly(calls, limit, t, all);
    forall k, i | 0 <= k < |calls| && 0 <= i < |calls[k].page| ensures Stays(calls, 0, Key(calls[k].page[i])) {
      ListedStays(calls, limit, t, k, i);
    }
    ExactlyOnceIffWhole(calls, limit);
  }
}
