/**
 Listing alerts in pages, newest first, by a cursor on the creation time.

 An alert is referred to by its position in the table. The database may return alerts with equal
 creation times in any order, and in a different one for each query.
 */
module Alerts {
  import opened Common

  const DEFAULT_LIMIT := 50
  const MAX_LIMIT := 100

  datatype Alert = Alert(id: string, eventType: string, severity: string, status: string, createdAt: int, ofChaosRun: bool)

  datatype ChaosRun = ChaosRun(status: string, startedAt: int, completedAt: Option<int>)

  datatype Params = Params(status: string, severity: string, eventType: string, limit: int, cursor: Option<int>)

  /** The fixed state of the database that a listing reads. */
  datatype Table = Table(alerts: seq<Alert>, runs: seq<ChaosRun>, now: int)

  /** Limits from 1 to 100 are kept; any other counts as the default. */
  function EffectiveLimit(limit: int): (r: nat)
    ensures 1 <= r <= MAX_LIMIT
    ensures r == limit <==> 1 <= limit <= MAX_LIMIT
    ensures r != limit ==> r == DEFAULT_LIMIT
  {
    if limit <= 0 || limit > MAX_LIMIT then DEFAULT_LIMIT else limit
  }

  // ---------------------------------------------------------------------------
  // The query
  // ---------------------------------------------------------------------------

  /** Created while a chaos run was going on. */
  predicate DuringChaos(t: Table, a: Alert) {
    exists k :: 0 <= k < |t.runs| && Covers(t, t.runs[k], a)
  }

  predicate Covers(t: Table, r: ChaosRun, a: Alert) {
    && (r.status == "running" || r.status == "completed")
    && r.startedAt <= a.createdAt <= (if r.completedAt.Some? then r.completedAt.value else t.now)
  }

  /** The filter, but for the cursor. */
  predicate Listed(t: Table, p: Params, a: Alert) {
    && !a.ofChaosRun && !DuringChaos(t, a)
    && (p.status == "all" || a.status == p.status)
    && (p.severity == "" || a.severity == p.severity)
    && (p.eventType == "" || a.eventType == p.eventType)
  }

  function Before(cursor: Option<int>, createdAt: int): bool {
    cursor.None? || createdAt < cursor.value
  }

  function Matching(t: Table, p: Params, cursor: Option<int>): (m: set<nat>)
    ensures forall i :: i in m ==> i < |t.alerts|
  {
    set i | 0 <= i < |t.alerts| && Listed(t, p, t.alerts[i]) && Before(cursor, t.alerts[i].createdAt) :: i
  }

  ghost predicate Within(t: Table, s: seq<nat>) {
    forall k :: 0 <= k < |s| ==> s[k] < |t.alerts|
  }

  ghost predicate NewestFirst(t: Table, s: seq<nat>)
    requires Within(t, s)
  {
    forall a, b :: 0 <= a < b < |s| ==> t.alerts[s[a]].createdAt >= t.alerts[s[b]].createdAt
  }

  function Last(t: Table, page: seq<nat>): int
    requires page != [] && page[|page| - 1] < |t.alerts|
  {
    t.alerts[page[|page| - 1]].createdAt
  }

  /** `page` is what the query may return: the newest matching alerts, as many as the limit allows. */
  ghost predicate IsAnswer(t: Table, p: Params, cursor: Option<int>, page: seq<nat>) {
    && Within(t, page) && NoRepeats(page) && NewestFirst(t, page)
    && (forall k :: 0 <= k < |page| ==> page[k] in Matching(t, p, cursor))
    && (|page| == EffectiveLimit(p.limit) || |page| == |Matching(t, p, cursor)| < EffectiveLimit(p.limit))
    && (page != [] ==> forall i :: i in Matching(t, p, cursor) && i !in page ==> t.alerts[i].createdAt <= Last(t, page))
  }

  /** The cursor a page ends with: none, unless the page is full. */
  ghost function NextCursor(t: Table, p: Params, page: seq<nat>): Option<int>
    requires Within(t, page)
  {
    if |page| == EffectiveLimit(p.limit) then Some(Last(t, page)) else None
  }

  // ---------------------------------------------------------------------------
  // Following the cursors
  // ---------------------------------------------------------------------------

  /** The cursor that page `k` is asked for with. */
  ghost function CursorOf(t: Table, p: Params, pages: seq<seq<nat>>, k: nat): Option<int>
    requires k <= |pages| && forall j :: 0 <= j < |pages| ==> Within(t, pages[j])
  {
    if k == 0 then None else NextCursor(t, p, pages[k - 1])
  }

  /** Pages fetched one after another, each with the cursor of the one before. */
  ghost predicate Followed(t: Table, p: Params, pages: seq<seq<nat>>) {
    && (forall k :: 0 <= k < |pages| ==> Within(t, pages[k]))
    && (forall k :: 0 <= k < |pages| ==> IsAnswer(t, p, CursorOf(t, p, pages, k), pages[k]))
    && (forall k :: 0 < k < |pages| ==> CursorOf(t, p, pages, k).Some?)
  }

  /** The client stops at the first page without a cursor. */
  ghost predicate Finished(t: Table, p: Params, pages: seq<seq<nat>>) {
    && pages != [] && Followed(t, p, pages)
    && CursorOf(t, p, pages, |pages|).None?
  }

  ghost function Concat(pages: seq<seq<nat>>): seq<nat> {
    if pages == [] then [] else Concat(pages[..|pages| - 1]) + pages[|pages| - 1]
  }

  ghost predicate InPages(pages: seq<seq<nat>>, i: nat) {
    exists k :: 0 <= k < |pages| && i in pages[k]
  }

  lemma {:induction false} ConcatMembers(pages: seq<seq<nat>>, i: nat)
    ensures i in Concat(pages) <==> InPages(pages, i)
  {
    if pages != [] {
      var n := |pages| - 1;
      ConcatMembers(pages[..n], i);
      if InPages(pages[..n], i) {
        var k :| 0 <= k < n && i in pages[..n][k];
        assert i in pages[k];
      }
      if k :| 0 <= k < |pages| && i in pages[k] {
        assert k < n ==> pages[..n][k] == pages[k];
      }
    }
  }

  lemma PrefixFollowed(t: Table, p: Params, pages: seq<seq<nat>>, n: nat)
    requires Followed(t, p, pages) && n <= |pages|
    ensures Followed(t, p, pages[..n])
  {
    hide IsAnswer, Within, NextCursor;
    var q := pages[..n];
    forall k | 0 <= k < n ensures IsAnswer(t, p, CursorOf(t, p, q, k), q[k]) && CursorOf(t, p, q, k) == CursorOf(t, p, pages, k) {
      assert IsAnswer(t, p, CursorOf(t, p, pages, k), pages[k]);
    }
  }

  /** A page is no older than its last alert, and what its cursor lets through is older. */
  lemma CursorCuts(t: Table, p: Params, cursor: Option<int>, page: seq<nat>, a: nat, i: nat)
    requires IsAnswer(t, p, cursor, page) && a < |page| && NextCursor(t, p, page).Some?
    requires i in Matching(t, p, NextCursor(t, p, page))
    ensures t.alerts[i].createdAt < Last(t, page) <= t.alerts[page[a]].createdAt
    ensures page[|page| - 1] in Matching(t, p, cursor)
  {
    hide Listed;
  }

  /** What the cursor of page `k` lets through is older than everything on the pages before. */
  lemma {:induction false} LaterIsOlder(t: Table, p: Params, pages: seq<seq<nat>>, j: nat, k: nat, a: nat, i: nat)
    requires Followed(t, p, pages) && j < k < |pages| && a < |pages[j]|
    requires i in Matching(t, p, CursorOf(t, p, pages, k))
    ensures i < |t.alerts| && t.alerts[i].createdAt < t.alerts[pages[j][a]].createdAt
  {
    hide IsAnswer, NextCursor, Last, Listed;
    assert CursorOf(t, p, pages, k).Some?;
    var last := pages[k - 1];
    assert IsAnswer(t, p, CursorOf(t, p, pages, k - 1), last);
    if j == k - 1 {
      CursorCuts(t, p, CursorOf(t, p, pages, k - 1), last, a, i);
    } else {
      NotEmpty(t, p, CursorOf(t, p, pages, k - 1), last);
      CursorCuts(t, p, CursorOf(t, p, pages, k - 1), last, |last| - 1, i);
      LaterIsOlder(t, p, pages, j, k - 1, a, last[|last| - 1]);
    }
  }

  lemma NotEmpty(t: Table, p: Params, cursor: Option<int>, page: seq<nat>)
    requires IsAnswer(t, p, cursor, page) && NextCursor(t, p, page).Some?
    ensures page != []
  {
  }

  /** What the pages hold is listed newest first, without repeats, and matches the filter. */
  lemma {:induction false} PagesAreOrdered(t: Table, p: Params, pages: seq<seq<nat>>)
    requires Followed(t, p, pages)
    ensures Within(t, Concat(pages)) && NoRepeats(Concat(pages)) && NewestFirst(t, Concat(pages))
    ensures forall i :: i in Concat(pages) ==> i in Matching(t, p, None)
  {
    hide Matching, NoRepeats, NewestFirst;
    if pages == [] {
      assert NoRepeats<nat>([]) && NewestFirst(t, []) by { NothingToOrder(t); }
    } else {
      var n := |pages| - 1;
      var front, last := Concat(pages[..n]), pages[n];
      PrefixFollowed(t, p, pages, n);
      PagesAreOrdered(t, p, pages[..n]);
      assert IsAnswer(t, p, CursorOf(t, p, pages, n), last);
      forall x, y | 0 <= x < |front| && 0 <= y < |last|
        ensures t.alerts[last[y]].createdAt < t.alerts[front[x]].createdAt
      {
        FrontIsNewer(t, p, pages, front[x], y);
      }
      JoinOrdered(t, front, last);
      forall i | i in last ensures i in Matching(t, p, None) {
        CursorOnlyCuts(t, p, CursorOf(t, p, pages, n), i);
      }
    }
  }

  lemma NothingToOrder(t: Table)
    ensures NoRepeats<nat>([]) && Within(t, []) && NewestFirst(t, [])
  {
  }

  lemma CursorOnlyCuts(t: Table, p: Params, cursor: Option<int>, i: nat)
    ensures i in Matching(t, p, cursor) <==> i in Matching(t, p, None) && Before(cursor, t.alerts[i].createdAt)
  {
  }

  lemma JoinOrdered(t: Table, a: seq<nat>, b: seq<nat>)
    requires Within(t, a) && NoRepeats(a) && NewestFirst(t, a)
    requires Within(t, b) && NoRepeats(b) && NewestFirst(t, b)
    requires forall x, y :: 0 <= x < |a| && 0 <= y < |b| ==> t.alerts[b[y]].createdAt < t.alerts[a[x]].createdAt
    ensures Within(t, a + b) && NoRepeats(a + b) && NewestFirst(t, a + b)
  {
  }

  lemma FrontIsNewer(t: Table, p: Params, pages: seq<seq<nat>>, i: nat, y: nat)
    requires Followed(t, p, pages) && pages != [] && i in Concat(pages[..|pages| - 1]) && y < |pages[|pages| - 1]|
    ensures i < |t.alerts| && t.alerts[pages[|pages| - 1][y]].createdAt < t.alerts[i].createdAt
  {
    hide Matching;
    var n := |pages| - 1;
    ConcatMembers(pages[..n], i);
    var j :| 0 <= j < n && i in pages[..n][j];
    var a :| 0 <= a < |pages[j]| && pages[j][a] == i;
    assert IsAnswer(t, p, CursorOf(t, p, pages, n), pages[n]);
    LaterIsOlder(t, p, pages, j, n, a, pages[n][y]);
  }

  // ---------------------------------------------------------------------------
  // When the pages are complete
  // ---------------------------------------------------------------------------

  /** Alerts created at the very time a page ends with are on that page or an earlier one. */
  ghost predicate NoTieIsCut(t: Table, p: Params, pages: seq<seq<nat>>, k: nat)
    requires k < |pages| && Within(t, pages[k])
  {
    forall i :: i in Matching(t, p, None) && pages[k] != [] && t.alerts[i].createdAt == Last(t, pages[k])
            ==> InPages(pages[..k + 1], i)
  }

  lemma InPagesSnoc(pages: seq<seq<nat>>, k: nat, i: nat)
    requires k < |pages|
    ensures InPages(pages[..k + 1], i) <==> InPages(pages[..k], i) || i in pages[k]
  {
    ConcatMembers(pages[..k + 1], i);
    ConcatMembers(pages[..k], i);
    assert pages[..k + 1][..k] == pages[..k];
  }

  /** An alert a page misses is let through by its cursor, unless it ties with the last one. */
  lemma MissedByPage(t: Table, p: Params, cursor: Option<int>, page: seq<nat>, i: nat)
    requires IsAnswer(t, p, cursor, page) && NextCursor(t, p, page).Some?
    requires i in Matching(t, p, cursor) && i !in page && i < |t.alerts|
    requires page != [] ==> t.alerts[i].createdAt != Last(t, page)
    ensures i in Matching(t, p, NextCursor(t, p, page))
  {
    hide Listed;
  }

  /** Without cut ties, what the pages so far miss is within reach of the next cursor. */
  lemma {:induction false} MissedIsAhead(t: Table, p: Params, pages: seq<seq<nat>>, k: nat, i: nat)
    requires Followed(t, p, pages) && k < |pages|
    requires forall j :: 0 <= j < k ==> NoTieIsCut(t, p, pages, j)
    requires i in Matching(t, p, None) && !InPages(pages[..k], i)
    ensures i in Matching(t, p, CursorOf(t, p, pages, k))
  {
    hide Matching, InPages, IsAnswer, NextCursor, Last, Within;
    if k > 0 {
      InPagesSnoc(pages, k - 1, i);
      MissedIsAhead(t, p, pages, k - 1, i);
      assert IsAnswer(t, p, CursorOf(t, p, pages, k - 1), pages[k - 1]);
      assert CursorOf(t, p, pages, k).Some?;
      assert NoTieIsCut(t, p, pages, k - 1);
      MissedByPage(t, p, CursorOf(t, p, pages, k - 1), pages[k - 1], i);
    }
  }

  lemma {:induction false} SetSize(s: seq<nat>, m: set<nat>)
    requires NoRepeats(s) && forall i :: i in s ==> i in m
    ensures |s| <= |m| && (|s| == |m| ==> forall i :: i in m ==> i in s)
  {
    if s != [] {
      var n := |s| - 1;
      assert s == s[..n] + [s[n]];
      SetSize(s[..n], m - {s[n]});
    } else if |m| == 0 {
      assert m == {};
    }
  }

  /** A page without a cursor holds everything that matched. */
  lemma LastPageIsAll(t: Table, p: Params, cursor: Option<int>, page: seq<nat>, i: nat)
    requires IsAnswer(t, p, cursor, page) && NextCursor(t, p, page).None? && i in Matching(t, p, cursor)
    ensures i in page
  {
    hide Matching;
    SetSize(page, Matching(t, p, cursor));
  }

  /** The pages hold every alert exactly when no page but the last cuts through alerts created at the same time. */
  lemma {:induction false} CompleteWhenNoTieIsCut(t: Table, p: Params, pages: seq<seq<nat>>)
    requires Finished(t, p, pages)
    ensures (forall i :: i in Matching(t, p, None) ==> i in Concat(pages))
       <==> (forall k :: 0 <= k < |pages| - 1 ==> NoTieIsCut(t, p, pages, k))
  {
    hide Matching, IsAnswer, InPages, NextCursor, NoTieIsCut;
    var n := |pages| - 1;
    if forall k :: 0 <= k < n ==> NoTieIsCut(t, p, pages, k) {
      forall i | i in Matching(t, p, None) ensures i in Concat(pages) {
        ConcatMembers(pages, i);
        InPagesSnoc(pages, n, i);
        assert pages[..n + 1] == pages;
        if !InPages(pages[..n], i) {
          MissedIsAhead(t, p, pages, n, i);
          LastPageIsAll(t, p, CursorOf(t, p, pages, n), pages[n], i);
        }
      }
    }
    if forall i :: i in Matching(t, p, None) ==> i in Concat(pages) {
      forall k | 0 <= k < n ensures NoTieIsCut(t, p, pages, k) {
        TiesAreListedInTime(t, p, pages, k);
      }
    }
  }

  lemma TiesAreListedInTime(t: Table, p: Params, pages: seq<seq<nat>>, k: nat)
    requires Followed(t, p, pages) && k < |pages| - 1
    requires forall i :: i in Matching(t, p, None) ==> i in Concat(pages)
    ensures NoTieIsCut(t, p, pages, k)
  {
    hide Matching, NextCursor, IsAnswer, InPages;
    forall i | i in Matching(t, p, None) && pages[k] != [] && t.alerts[i].createdAt == Last(t, pages[k])
      ensures InPages(pages[..k + 1], i)
    {
      ConcatMembers(pages, i);
      TieIsListedInTime(t, p, pages, k, i);
    }
  }

  lemma TieIsListedInTime(t: Table, p: Params, pages: seq<seq<nat>>, k: nat, i: nat)
    requires Followed(t, p, pages) && k < |pages| - 1 && InPages(pages, i)
    requires pages[k] != [] && i < |t.alerts| && t.alerts[i].createdAt == Last(t, pages[k])
    ensures InPages(pages[..k + 1], i)
  {
    hide Matching, NextCursor, Followed, Last;
    var j :| 0 <= j < |pages| && i in pages[j];
    if j > k {
      assert Within(t, pages[k]) by { PageIsWithin(t, p, pages, k); }
      LastIsCreated(t, pages[k]);
      MatchesItsCursor(t, p, pages, j, i);
      LaterIsOlder(t, p, pages, k, j, |pages[k]| - 1, i);
    } else {
      assert pages[..k + 1][j] == pages[j];
    }
  }

  lemma PageIsWithin(t: Table, p: Params, pages: seq<seq<nat>>, k: nat)
    requires Followed(t, p, pages) && k < |pages|
    ensures Within(t, pages[k])
  {
    hide IsAnswer, Within;
  }

  lemma MatchesItsCursor(t: Table, p: Params, pages: seq<seq<nat>>, j: nat, i: nat)
    requires Followed(t, p, pages) && j < |pages| && i in pages[j]
    ensures i in Matching(t, p, CursorOf(t, p, pages, j))
  {
    hide Matching, NextCursor;
    assert IsAnswer(t, p, CursorOf(t, p, pages, j), pages[j]);
  }

  ghost predicate DistinctTimes(t: Table) {
    forall i, j :: 0 <= i < j < |t.alerts| ==> t.alerts[i].createdAt != t.alerts[j].createdAt
  }

  /** Alerts with different creation times are all listed. */
  lemma {:induction false} DistinctTimesAreComplete(t: Table, p: Params, pages: seq<seq<nat>>)
    requires Finished(t, p, pages) && DistinctTimes(t)
    ensures forall i :: i in Concat(pages) <==> i in Matching(t, p, None)
  {
    hide Matching, NextCursor, IsAnswer, DistinctTimes;
    PagesAreOrdered(t, p, pages);
    forall k | 0 <= k < |pages| - 1 ensures NoTieIsCut(t, p, pages, k) {
      NoTies(t, p, pages, k);
    }
    CompleteWhenNoTieIsCut(t, p, pages);
  }

  lemma NoTies(t: Table, p: Params, pages: seq<seq<nat>>, k: nat)
    requires DistinctTimes(t) && k < |pages| && Within(t, pages[k])
    ensures NoTieIsCut(t, p, pages, k)
  {
    hide Matching;
    forall i | i in Matching(t, p, None) && pages[k] != [] && t.alerts[i].createdAt == Last(t, pages[k])
      ensures InPages(pages[..k + 1], i)
    {
      assert i == pages[k][|pages[k]| - 1];
      assert i in pages[..k + 1][k];
    }
  }

  lemma PageIsFull(t: Table, p: Params, pages: seq<seq<nat>>, k: nat)
    requires Followed(t, p, pages) && k + 1 < |pages|
    ensures |pages[k]| == EffectiveLimit(p.limit)
  {
    hide IsAnswer, Within, EffectiveLimit;
    assert CursorOf(t, p, pages, k + 1).Some?;
  }

  lemma {:induction false} FullPages(t: Table, p: Params, pages: seq<seq<nat>>, n: nat)
    requires Followed(t, p, pages) && n < |pages|
    ensures |Concat(pages[..n])| == n * EffectiveLimit(p.limit)
  {
    hide Followed, EffectiveLimit;
    if n > 0 {
      FullPages(t, p, pages, n - 1);
      assert pages[..n][..n - 1] == pages[..n - 1];
      PageIsFull(t, p, pages, n - 1);
      assert (n - 1) * EffectiveLimit(p.limit) + EffectiveLimit(p.limit) == n * EffectiveLimit(p.limit);
    }
  }

  /** The client is done after one page more than the alerts fill. */
  lemma PagesRunOut(t: Table, p: Params, pages: seq<seq<nat>>)
    requires Followed(t, p, pages) && pages != []
    ensures (|pages| - 1) * EffectiveLimit(p.limit) <= |Matching(t, p, None)|
  {
    hide Matching;
    var n := |pages| - 1;
    FullPages(t, p, pages, n);
    PrefixFollowed(t, p, pages, n);
    PagesAreOrdered(t, p, pages[..n]);
    SetSize(Concat(pages[..n]), Matching(t, p, None));
  }

  // ---------------------------------------------------------------------------
  // The same, read off the table and the limit
  // ---------------------------------------------------------------------------

  /** The matching alerts created after, and not before, the given time. */
  function Newer(t: Table, p: Params, time: int): (m: set<nat>)
    ensures m <= Matching(t, p, None)
  {
    set i | i in Matching(t, p, None) && t.alerts[i].createdAt > time
  }

  function NotOlder(t: Table, p: Params, time: int): (m: set<nat>)
    ensures m <= Matching(t, p, None)
  {
    set i | i in Matching(t, p, None) && t.alerts[i].createdAt >= time
  }

  /** In the order of the listing, a page's worth of alerts ends within the alerts created at `time`. */
  predicate EndsWithin(t: Table, p: Params, time: int, k: nat) {
    |Newer(t, p, time)| < k * EffectiveLimit(p.limit) < |NotOlder(t, p, time)|
  }

  ghost predicate PagesFallBetween(t: Table, p: Params) {
    forall time: int, k: nat :: !EndsWithin(t, p, time, k)
  }

  lemma LastOfPage(t: Table, p: Params, cursor: Option<int>, page: seq<nat>, i: nat)
    requires IsAnswer(t, p, cursor, page) && page != []
    ensures page[|page| - 1] in Matching(t, p, cursor)
    ensures i in page ==> i < |t.alerts| && t.alerts[i].createdAt >= Last(t, page)
    ensures i in Matching(t, p, cursor) && i !in page ==> t.alerts[i].createdAt <= Last(t, page)
  {
    hide Matching;
  }

  /** The pages so far hold nothing older than the last one's last alert. */
  lemma ListedIsNotOlder(t: Table, p: Params, pages: seq<seq<nat>>, n: nat, i: nat)
    requires Followed(t, p, pages) && n < |pages| && pages[n] != [] && i in Concat(pages[..n + 1])
    ensures i in NotOlder(t, p, Last(t, pages[n]))
  {
    hide Matching, IsAnswer, NextCursor, Within, Last;
    PrefixFollowed(t, p, pages, n + 1);
    PagesAreOrdered(t, p, pages[..n + 1]);
    ConcatMembers(pages[..n + 1], i);
    assert IsAnswer(t, p, CursorOf(t, p, pages, n), pages[n]);
    LastOfPage(t, p, CursorOf(t, p, pages, n), pages[n], i);
    InPagesSnoc(pages, n, i);
    if i !in pages[n] {
      var j :| 0 <= j < n && i in pages[..n][j];
      var a :| 0 <= a < |pages[j]| && pages[j][a] == i;
      LaterIsOlder(t, p, pages, j, n, a, pages[n][|pages[n]| - 1]);
      LastIsCreated(t, pages[n]);
    }
  }

  lemma LastIsCreated(t: Table, page: seq<nat>)
    requires Within(t, page) && page != []
    ensures page[|page| - 1] < |t.alerts| && Last(t, page) == t.alerts[page[|page| - 1]].createdAt
  {
  }

  /** And they hold everything newer than that, if no earlier page has cut a tie. */
  lemma NewerIsListed(t: Table, p: Params, pages: seq<seq<nat>>, n: nat, i: nat)
    requires Followed(t, p, pages) && n < |pages| && pages[n] != []
    requires forall j :: 0 <= j < n ==> NoTieIsCut(t, p, pages, j)
    requires i in Newer(t, p, Last(t, pages[n]))
    ensures i in Concat(pages[..n + 1])
  {
    hide Matching, IsAnswer, NextCursor, Within, Last, NoTieIsCut, InPages;
    ConcatMembers(pages[..n + 1], i);
    InPagesSnoc(pages, n, i);
    assert IsAnswer(t, p, CursorOf(t, p, pages, n), pages[n]);
    if !InPages(pages[..n], i) {
      MissedIsAhead(t, p, pages, n, i);
      LastOfPage(t, p, CursorOf(t, p, pages, n), pages[n], i);
    }
  }

  /** The first pages are so many of the newest alerts. */
  lemma FrontSize(t: Table, p: Params, pages: seq<seq<nat>>, n: nat)
    requires Followed(t, p, pages) && n + 1 < |pages|
    ensures |Concat(pages[..n + 1])| == (n + 1) * EffectiveLimit(p.limit) && NoRepeats(Concat(pages[..n + 1]))
    ensures pages[n] != [] && Within(t, pages[n])
  {
    hide Matching, IsAnswer, NextCursor, Within, NoRepeats;
    FullPages(t, p, pages, n + 1);
    PrefixFollowed(t, p, pages, n + 1);
    PagesAreOrdered(t, p, pages[..n + 1]);
    PageIsFull(t, p, pages, n);
  }

  lemma {:induction false} SubsetSize(s: seq<nat>, m: set<nat>)
    requires NoRepeats(s) && forall i :: i in m ==> i in s
    ensures |m| <= |s| && (|m| == |s| ==> forall i :: i in s ==> i in m)
  {
    if s == [] {
      assert m == {};
    } else {
      var n := |s| - 1;
      assert s == s[..n] + [s[n]];
      SubsetSize(s[..n], m - {s[n]});
      if s[n] in m {
        assert m == m - {s[n]} + {s[n]};
      } else {
        assert m - {s[n]} == m;
      }
    }
  }

  /** If no page ends within a tie, no page cuts one. */
  lemma {:induction false} BetweenCutsNothing(t: Table, p: Params, pages: seq<seq<nat>>, n: nat)
    requires Followed(t, p, pages) && PagesFallBetween(t, p) && n + 1 < |pages|
    requires forall j :: 0 <= j < n ==> NoTieIsCut(t, p, pages, j)
    ensures NoTieIsCut(t, p, pages, n)
  {
    hide Matching, InPages, IsAnswer, NextCursor, Newer, NotOlder, Followed, Last, Within;
    FrontSize(t, p, pages, n);
    LastIsCreated(t, pages[n]);
    forall i | i in Matching(t, p, None) && t.alerts[i].createdAt == Last(t, pages[n]) ensures InPages(pages[..n + 1], i) {
      ConcatMembers(pages[..n + 1], i);
      if i !in Concat(pages[..n + 1]) {
        CutEndsWithin(t, p, pages, n, i);
      }
    }
  }

  /** A page that cuts a tie, and is the first to do so, ends within it. */
  lemma CutEndsWithin(t: Table, p: Params, pages: seq<seq<nat>>, n: nat, i: nat)
    requires Followed(t, p, pages) && n + 1 < |pages| && pages[n] != []
    requires forall j :: 0 <= j < n ==> NoTieIsCut(t, p, pages, j)
    requires i in Matching(t, p, None) && t.alerts[i].createdAt == Last(t, pages[n]) && i !in Concat(pages[..n + 1])
    ensures EndsWithin(t, p, Last(t, pages[n]), n + 1)
  {
    hide Matching, InPages, IsAnswer, NextCursor, Last, NoTieIsCut;
    var front, time := Concat(pages[..n + 1]), Last(t, pages[n]);
    FrontSize(t, p, pages, n);
    forall x | x in Newer(t, p, time) ensures x in front {
      NewerIsListed(t, p, pages, n, x);
    }
    forall x | x in front ensures x in NotOlder(t, p, time) {
      ListedIsNotOlder(t, p, pages, n, x);
    }
    NewerIsFewer(t, p, pages, n);
    SetSize(front, NotOlder(t, p, time));
    assert i in NotOlder(t, p, time);
  }

  lemma NewerIsFewer(t: Table, p: Params, pages: seq<seq<nat>>, n: nat)
    requires Followed(t, p, pages) && n + 1 < |pages| && pages[n] != []
    requires forall x :: x in Newer(t, p, Last(t, pages[n])) ==> x in Concat(pages[..n + 1])
    ensures |Newer(t, p, Last(t, pages[n]))| < |Concat(pages[..n + 1])|
  {
    hide Matching, InPages, IsAnswer, NextCursor;
    var front, last := Concat(pages[..n + 1]), pages[n][|pages[n]| - 1];
    FrontSize(t, p, pages, n);
    SubsetSize(front, Newer(t, p, Last(t, pages[n])));
    ConcatMembers(pages[..n + 1], last);
    assert last in pages[..n + 1][n];
    LastIsCreated(t, pages[n]);
    assert last !in Newer(t, p, Last(t, pages[n]));
  }

  /** If no page cuts a tie, none ends within one. */
  lemma NoCutFallsBetween(t: Table, p: Params, pages: seq<seq<nat>>, time: int, k: nat)
    requires Finished(t, p, pages)
    requires forall j :: 0 <= j < |pages| - 1 ==> NoTieIsCut(t, p, pages, j)
    ensures !EndsWithin(t, p, time, k)
  {
    hide Matching, InPages, IsAnswer, NextCursor, Last, NoTieIsCut, Newer, NotOlder, Followed;
    if EndsWithin(t, p, time, k) {
      WithinIsBefore(t, p, pages, time, k);
      FrontSize(t, p, pages, k - 1);
      var time' := Last(t, pages[k - 1]);
      FrontIsNotOlder(t, p, pages, k - 1);
      assert |NotOlder(t, p, time')| == k * EffectiveLimit(p.limit);
      Compare(t, p, time, time');
    }
  }

  lemma Compare(t: Table, p: Params, time: int, time': int)
    ensures |NotOlder(t, p, time')| <= |Newer(t, p, time)| || |NotOlder(t, p, time)| <= |NotOlder(t, p, time')|
  {
    hide Matching;
    if time' > time {
      Subset(NotOlder(t, p, time'), Newer(t, p, time));
    } else {
      Subset(NotOlder(t, p, time), NotOlder(t, p, time'));
    }
  }

  lemma {:induction false} Subset(a: set<nat>, b: set<nat>)
    requires a <= b
    ensures |a| <= |b|
  {
    if x :| x in a {
      Subset(a - {x}, b - {x});
    }
  }

  /** The page that would end within a tie is not the last one. */
  lemma WithinIsBefore(t: Table, p: Params, pages: seq<seq<nat>>, time: int, k: nat)
    requires Finished(t, p, pages) && EndsWithin(t, p, time, k)
    requires forall j :: 0 <= j < |pages| - 1 ==> NoTieIsCut(t, p, pages, j)
    ensures 0 < k < |pages|
  {
    hide Matching, InPages, IsAnswer, NoTieIsCut, Newer, NotOlder, NextCursor;
    CompleteWhenNoTieIsCut(t, p, pages);
    PagesAreOrdered(t, p, pages);
    Subset(NotOlder(t, p, time), Matching(t, p, None));
    SubsetSize(Concat(pages), Matching(t, p, None));
    ShortEnd(t, p, pages);
    if k >= |pages| {
      Times(|pages|, k, EffectiveLimit(p.limit));
    }
  }

  lemma Times(a: nat, b: nat, c: nat)
    requires a <= b
    ensures a * c <= b * c
  {
  }

  lemma IsShort(t: Table, p: Params, cursor: Option<int>, page: seq<nat>)
    requires IsAnswer(t, p, cursor, page) && NextCursor(t, p, page).None?
    ensures |page| < EffectiveLimit(p.limit)
  {
  }

  lemma LastIsShort(t: Table, p: Params, pages: seq<seq<nat>>)
    requires Finished(t, p, pages)
    ensures |pages[|pages| - 1]| < EffectiveLimit(p.limit)
  {
    hide IsAnswer, NextCursor, Within, EffectiveLimit;
    var n := |pages| - 1;
    assert IsAnswer(t, p, CursorOf(t, p, pages, n), pages[n]);
    IsShort(t, p, CursorOf(t, p, pages, n), pages[n]);
  }

  lemma OneMore(n: nat, limit: nat)
    ensures n * limit + limit == (n + 1) * limit
  {
  }

  /** All but the last page are full, and the last one is not. */
  lemma ShortEnd(t: Table, p: Params, pages: seq<seq<nat>>)
    requires Finished(t, p, pages)
    ensures |Concat(pages)| < |pages| * EffectiveLimit(p.limit)
  {
    hide Followed, EffectiveLimit;
    var n := |pages| - 1;
    FullPages(t, p, pages, n);
    LastIsShort(t, p, pages);
    OneMore(n, EffectiveLimit(p.limit));
  }

  /** The first pages are exactly the alerts down to a time. */
  lemma FrontIsNotOlder(t: Table, p: Params, pages: seq<seq<nat>>, n: nat)
    requires Followed(t, p, pages) && n + 1 < |pages| && pages[n] != []
    requires forall j :: 0 <= j <= n ==> NoTieIsCut(t, p, pages, j)
    ensures |NotOlder(t, p, Last(t, pages[n]))| == (n + 1) * EffectiveLimit(p.limit)
  {
    hide Matching, IsAnswer, NextCursor, Last, InPages;
    var front, time := Concat(pages[..n + 1]), Last(t, pages[n]);
    FrontSize(t, p, pages, n);
    forall x | x in front ensures x in NotOlder(t, p, time) {
      ListedIsNotOlder(t, p, pages, n, x);
    }
    forall x | x in NotOlder(t, p, time) ensures x in front {
      if t.alerts[x].createdAt > time {
        NewerIsListed(t, p, pages, n, x);
      } else {
        assert NoTieIsCut(t, p, pages, n);
        ConcatMembers(pages[..n + 1], x);
      }
    }
    SetSize(front, NotOlder(t, p, time));
    SubsetSize(front, NotOlder(t, p, time));
  }

  lemma {:induction false} BetweenCutsNone(t: Table, p: Params, pages: seq<seq<nat>>, n: nat)
    requires Followed(t, p, pages) && PagesFallBetween(t, p) && n < |pages|
    ensures forall j :: 0 <= j < n ==> NoTieIsCut(t, p, pages, j)
  {
    hide NoTieIsCut, Followed, PagesFallBetween;
    if n > 0 {
      BetweenCutsNone(t, p, pages, n - 1);
      BetweenCutsNothing(t, p, pages, n - 1);
    }
  }

  /**
   Whether alerts are lost is decided by the table and the limit alone: whatever answers the
   database gives, following the cursors to the end lists every alert of the filter exactly when no
   whole number of pages ends within a group of alerts created at the same time.
   */
  lemma {:induction false} CompleteExactly(t: Table, p: Params, pages: seq<seq<nat>>)
    requires Finished(t, p, pages)
    ensures (forall i :: i in Matching(t, p, None) ==> i in Concat(pages)) <==> PagesFallBetween(t, p)
  {
    hide Matching, IsAnswer, NextCursor, NoTieIsCut, EndsWithin, Concat;
    CompleteWhenNoTieIsCut(t, p, pages);
    if PagesFallBetween(t, p) {
      BetweenCutsNone(t, p, pages, |pages| - 1);
    }
    if forall j :: 0 <= j < |pages| - 1 ==> NoTieIsCut(t, p, pages, j) {
      forall time: int, k: nat ensures !EndsWithin(t, p, time, k) {
        NoCutFallsBetween(t, p, pages, time, k);
      }
    }
  }

  // Three alerts, two of them created at once, in pages of two.

  function At(id: string, time: int): Alert {
    Alert(id, "queue.lag", "warning", "active", time, false)
  }

  const TIED := Table([At("a", 2), At("b", 1), At("c", 1)], [], 3)
  const BY_TWO := Params("all", "", "", 2, None)

  lemma TiedMatching()
    ensures Matching(TIED, BY_TWO, None) == {0, 1, 2} && Matching(TIED, BY_TWO, Some(1)) == {}
  {
    assert TIED.alerts[0] == At("a", 2) && TIED.alerts[1] == At("b", 1) && TIED.alerts[2] == At("c", 1);
    assert Listed(TIED, BY_TWO, At("a", 2)) && Listed(TIED, BY_TWO, At("b", 1)) && Listed(TIED, BY_TWO, At("c", 1));
    hide Listed;
    forall i: nat ensures i in Matching(TIED, BY_TWO, None) <==> i in {0, 1, 2} {
      assert i < 3 ==> i == 0 || i == 1 || i == 2;
    }
    forall i: nat ensures i !in Matching(TIED, BY_TWO, Some(1)) {
      assert i < 3 ==> i == 0 || i == 1 || i == 2;
    }
  }

  lemma TiedAnswers()
    ensures IsAnswer(TIED, BY_TWO, None, [0, 1]) && IsAnswer(TIED, BY_TWO, Some(1), [])
    ensures NextCursor(TIED, BY_TWO, [0, 1]) == Some(1) && NextCursor(TIED, BY_TWO, []) == None
  {
    hide Matching;
    TiedMatching();
  }

  /** The first page ends with one of the two alerts created at once, and its cursor skips the other. */
  lemma TiedAlertIsLost()
    ensures Finished(TIED, BY_TWO, [[0, 1], []])
    ensures 2 in Matching(TIED, BY_TWO, None) && 2 !in Concat([[0, 1], []])
  {
    hide Matching, IsAnswer, NextCursor;
    TiedMatching();
    TiedAnswers();
    var pages: seq<seq<nat>> := [[0, 1], []];
    assert CursorOf(TIED, BY_TWO, pages, 1) == Some(1) && CursorOf(TIED, BY_TWO, pages, 2) == None;
    ConcatMembers(pages, 2);
    assert !InPages(pages, 2);
  }

  // ---------------------------------------------------------------------------
  // Paging can go on, and ends
  // ---------------------------------------------------------------------------

  lemma {:induction false} NewestOf(t: Table, m: set<nat>) returns (x: nat)
    requires m != {} && forall i :: i in m ==> i < |t.alerts|
    ensures x in m && forall i :: i in m ==> t.alerts[i].createdAt <= t.alerts[x].createdAt
    decreases |m|
  {
    var y :| y in m;
    x := y;
    if m != {y} {
      assert m == m - {y} + {y};
      var z := NewestOf(t, m - {y});
      x := if t.alerts[z].createdAt > t.alerts[y].createdAt then z else y;
    }
  }

  /** Up to `n` of the newest elements of `m`, newest first. */
  ghost predicate NewestIn(t: Table, m: set<nat>, n: nat, page: seq<nat>) {
    && Within(t, page) && NoRepeats(page) && NewestFirst(t, page)
    && (forall i :: i in page ==> i in m)
    && |page| == (if n <= |m| then n else |m|)
    && (page != [] ==> forall i :: i in m && i !in page && i < |t.alerts| ==> t.alerts[i].createdAt <= Last(t, page))
  }

  lemma PutFirst(t: Table, x: nat, rest: seq<nat>)
    requires Within(t, rest) && NoRepeats(rest) && NewestFirst(t, rest) && x < |t.alerts|
    requires forall k :: 0 <= k < |rest| ==> rest[k] != x && t.alerts[rest[k]].createdAt <= t.alerts[x].createdAt
    ensures Within(t, [x] + rest) && NoRepeats([x] + rest) && NewestFirst(t, [x] + rest)
  {
  }

  lemma PutNewest(t: Table, m: set<nat>, n: nat, x: nat, rest: seq<nat>)
    requires n > 0 && x in m && x < |t.alerts| && NewestIn(t, m - {x}, n - 1, rest)
    requires forall i :: i in m ==> i < |t.alerts| && t.alerts[i].createdAt <= t.alerts[x].createdAt
    ensures NewestIn(t, m, n, [x] + rest)
  {
    var page := [x] + rest;
    forall k | 0 <= k < |rest| ensures rest[k] != x && t.alerts[rest[k]].createdAt <= t.alerts[x].createdAt {
      assert rest[k] in rest;
    }
    PutFirst(t, x, rest);
    hide Within, NoRepeats, NewestFirst;
    assert forall i :: i in page <==> i == x || i in rest;
    assert rest != [] ==> page[|page| - 1] == rest[|rest| - 1];
  }

  /** The query always has an answer. */
  lemma {:induction false} SomePage(t: Table, m: set<nat>, n: nat) returns (page: seq<nat>)
    requires forall i :: i in m ==> i < |t.alerts|
    ensures NewestIn(t, m, n, page)
    decreases n
  {
    page := [];
    if n > 0 && m != {} {
      hide NewestIn;
      var x := NewestOf(t, m);
      var rest := SomePage(t, m - {x}, n - 1);
      PutNewest(t, m, n, x, rest);
      page := [x] + rest;
    }
  }

  lemma SomeAnswer(t: Table, p: Params, cursor: Option<int>) returns (page: seq<nat>)
    ensures IsAnswer(t, p, cursor, page)
  {
    hide Listed;
    page := SomePage(t, Matching(t, p, cursor), EffectiveLimit(p.limit));
  }

  lemma OneMorePage(t: Table, p: Params, pages: seq<seq<nat>>, page: seq<nat>)
    requires Followed(t, p, pages) && IsAnswer(t, p, CursorOf(t, p, pages, |pages|), page)
    requires pages == [] || CursorOf(t, p, pages, |pages|).Some?
    ensures Followed(t, p, pages + [page])
  {
    hide IsAnswer, Within, NextCursor;
    var more := pages + [page];
    assert Within(t, page) by { AnswerWithin(t, p, CursorOf(t, p, pages, |pages|), page); }
    assert forall k :: 0 <= k < |more| ==> Within(t, more[k]);
    forall k | 0 <= k <= |pages| ensures CursorOf(t, p, more, k) == CursorOf(t, p, pages, k) {
      assert k > 0 ==> more[k - 1] == pages[k - 1];
    }
  }

  lemma AnswerWithin(t: Table, p: Params, cursor: Option<int>, page: seq<nat>)
    requires IsAnswer(t, p, cursor, page)
    ensures Within(t, page)
  {
  }

  /** Whatever the pages so far, the client can go on, and comes to an end. */
  lemma {:induction false} PagingEnds(t: Table, p: Params, pages: seq<seq<nat>>) returns (all: seq<seq<nat>>)
    requires Followed(t, p, pages)
    requires pages == [] || CursorOf(t, p, pages, |pages|).Some?
    ensures Finished(t, p, all) && pages <= all
    decreases |Matching(t, p, None)| + 1 - |pages|
  {
    hide IsAnswer, Within, NextCursor, Matching;
    var page := SomeAnswer(t, p, CursorOf(t, p, pages, |pages|));
    OneMorePage(t, p, pages, page);
    all := pages + [page];
    if CursorOf(t, p, all, |all|).Some? {
      RoomForMore(t, p, all);
      all := PagingEnds(t, p, all);
    }
  }

  lemma RoomForMore(t: Table, p: Params, pages: seq<seq<nat>>)
    requires Followed(t, p, pages) && pages != [] && CursorOf(t, p, pages, |pages|).Some?
    ensures |pages| <= |Matching(t, p, None)|
  {
    hide Matching, Followed, EffectiveLimit, NoRepeats;
    PagesAreOrdered(t, p, pages);
    SetSize(Concat(pages), Matching(t, p, None));
    FullPages(t, p, pages, |pages| - 1);
    AtLeast(|pages| - 1, EffectiveLimit(p.limit));
  }

  lemma AtLeast(n: nat, limit: nat)
    requires limit >= 1
    ensures n * limit >= n
  {
  }

  // ---------------------------------------------------------------------------
  // The store
  // ---------------------------------------------------------------------------

  predicate IsOpen(a: Alert, id: string) {
    a.id == id && a.status == "active"
  }

  function Acknowledged(a: Alert, id: string): Alert {
    if IsOpen(a, id) then a.(status := "acknowledged") else a
  }

  /** The alert of that id is acknowledged if it was active; nothing else changes. */
  ghost predicate IsAcknowledged(before: Table, id: string, after: Table) {
    && after == before.(alerts := after.alerts) && |after.alerts| == |before.alerts|
    && forall i :: 0 <= i < |before.alerts| ==> after.alerts[i] == Acknowledged(before.alerts[i], id)
  }

  lemma SameMatching(before: Table, id: string, after: Table, p: Params, cursor: Option<int>)
    requires IsAcknowledged(before, id, after) && p.status == "all"
    ensures Matching(after, p, cursor) == Matching(before, p, cursor)
  {
    forall i | 0 <= i < |before.alerts| ensures Listed(after, p, after.alerts[i]) <==> Listed(before, p, before.alerts[i]) {
      SameChaos(before, after, before.alerts[i], after.alerts[i]);
    }
    hide Listed;
  }

  /** An acknowledgement between two pages of all alerts changes no answer. */
  lemma AcknowledgingKeepsPages(before: Table, id: string, after: Table, p: Params, cursor: Option<int>, page: seq<nat>)
    requires IsAcknowledged(before, id, after) && p.status == "all"
    ensures Matching(after, p, cursor) == Matching(before, p, cursor)
    ensures IsAnswer(after, p, cursor, page) <==> IsAnswer(before, p, cursor, page)
  {
    SameMatching(before, id, after, p, cursor);
    assert forall i :: 0 <= i < |before.alerts| ==> after.alerts[i].createdAt == before.alerts[i].createdAt;
    hide Matching, IsAcknowledged, Acknowledged;
  }

  lemma SameChaos(before: Table, after: Table, a: Alert, b: Alert)
    requires after.runs == before.runs && after.now == before.now && a.createdAt == b.createdAt
    ensures DuringChaos(after, b) <==> DuringChaos(before, a)
  {
    assert forall k :: 0 <= k < |before.runs| ==> (Covers(after, after.runs[k], b) <==> Covers(before, before.runs[k], a));
  }

  /**
   What a page holds, condition by condition: alerts outside chaos runs, of the requested status,
   severity and type, older than the cursor; all of them if the page is not full, and if it is, all
   that are newer than its last.
   */
  lemma PageFilters(t: Table, p: Params, page: seq<nat>, i: nat)
    requires IsAnswer(t, p, p.cursor, page) && i < |t.alerts|
    ensures
      var a := t.alerts[i];
      var wanted :=
        && !a.ofChaosRun
        && (forall k :: 0 <= k < |t.runs| && t.runs[k].status in {"running", "completed"} ==>
              a.createdAt < t.runs[k].startedAt
              || a.createdAt > (if t.runs[k].completedAt.Some? then t.runs[k].completedAt.value else t.now))
        && p.status in {"all", a.status} && p.severity in {"", a.severity} && p.eventType in {"", a.eventType}
        && (p.cursor.Some? ==> a.createdAt < p.cursor.value);
      && (i in page ==> wanted)
      && (wanted && |page| < (if 1 <= p.limit <= 100 then p.limit else 50) ==> i in page)
      && (wanted && page != [] && a.createdAt > t.alerts[page[|page| - 1]].createdAt ==> i in page)
  {
    RunsApart(t, t.alerts[i]);
    if i in Matching(t, p, p.cursor) {
      hide Matching;
      SetSize(page, Matching(t, p, p.cursor));
    }
  }

  lemma RunsApart(t: Table, a: Alert)
    ensures !DuringChaos(t, a) <==>
      forall k :: 0 <= k < |t.runs| && t.runs[k].status in {"running", "completed"} ==>
        a.createdAt < t.runs[k].startedAt
        || a.createdAt > (if t.runs[k].completedAt.Some? then t.runs[k].completedAt.value else t.now)
  {
    if DuringChaos(t, a) {
      var k :| 0 <= k < |t.runs| && Covers(t, t.runs[k], a);
    }
    forall k | 0 <= k < |t.runs| && Covers(t, t.runs[k], a) ensures DuringChaos(t, a) {
    }
  }

  datatype Rows = QueryFailed | Fetched(rows: seq<nat>, badRow: Option<nat>, broken: bool)

  datatype Listing = Failed | Page(results: seq<Alert>, nextCursor: Option<int>)

  class AlertStore {
    var table: Table

    /** One page; the rows are what the database returned, of which any may fail to be read. */
    method ListAlerts(p: Params, answer: Rows) returns (r: Listing)
      requires answer.Fetched? ==> IsAnswer(table, p, p.cursor, answer.rows)
      ensures r.Failed? <==> answer.QueryFailed? || answer.broken || (answer.badRow.Some? && answer.badRow.value < |answer.rows|)
      ensures r.Page? ==>
        && |r.results| == |answer.rows|
        && (forall k :: 0 <= k < |answer.rows| ==> r.results[k] == table.alerts[answer.rows[k]])
        && r.nextCursor == NextCursor(table, p, answer.rows)
      ensures r.Page? ==> forall k | 0 <= k < |r.results| ::
        && !r.results[k].ofChaosRun
        && p.status in {"all", r.results[k].status} && p.severity in {"", r.results[k].severity}
        && p.eventType in {"", r.results[k].eventType}
        && (p.cursor.Some? ==> r.results[k].createdAt < p.cursor.value)
    {
      hide Matching, Listed;
      var limit := p.limit;
      if limit <= 0 || limit > MAX_LIMIT {
        limit := DEFAULT_LIMIT;
      }
      if answer.QueryFailed? {
        return Failed;
      }
      var results: seq<Alert> := [];
      var k := 0;
      while k < |answer.rows|
        invariant |results| == k <= |answer.rows|
        invariant answer.badRow.Some? ==> answer.badRow.value >= k
        invariant forall j :: 0 <= j < k ==> results[j] == table.alerts[answer.rows[j]]
      {
        if answer.badRow == Some(k) {
          return Failed;
        }
        results := results + [table.alerts[answer.rows[k]]];
        k := k + 1;
      }
      if answer.broken {
        return Failed;
      }
      var nextCursor := None;
      if |results| == limit {
        nextCursor := Some(results[|results| - 1].createdAt);
      }
      r := Page(results, nextCursor);
      forall k | 0 <= k < |answer.rows|
        ensures !results[k].ofChaosRun
        ensures p.status in {"all", results[k].status} && p.severity in {"", results[k].severity}
        ensures p.eventType in {"", results[k].eventType}
        ensures p.cursor.Some? ==> results[k].createdAt < p.cursor.value
      {
        PageFilters(table, p, answer.rows, answer.rows[k]);
      }
    }

    /** Acknowledge an active alert; the call may fail, before or after it took effect. */
    method AcknowledgeAlert(id: string, applied: bool, acked: bool) returns (ok: bool)
      requires acked ==> applied
      modifies this
      ensures ok <==> acked && exists i :: 0 <= i < |old(table.alerts)| && IsOpen(old(table.alerts)[i], id)
      ensures if applied then IsAcknowledged(old(table), id, table) else table == old(table)
      ensures |table.alerts| == |old(table.alerts)|
      ensures applied ==> forall i | 0 <= i < |table.alerts| ::
        table.alerts[i] == var a := old(table.alerts)[i];
                           if a.id == id && a.status == "active" then a.(status := "acknowledged") else a
    {
      var alerts := table.alerts;
      ok := acked && exists i :: 0 <= i < |alerts| && IsOpen(alerts[i], id);
      if applied {
        table := table.(alerts := seq(|alerts|, i requires 0 <= i < |alerts| =>
          if alerts[i].id == id && alerts[i].status == "active" then alerts[i].(status := "acknowledged") else alerts[i]));
      }
    }
  }
}
