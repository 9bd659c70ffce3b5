/**
 The rows of the trace chart: the bookkeeping of the flattening as the page does it, with its maps
 and its recursive walk, and the geometry of the bars.
 */
module SpanRows {
  import opened Common
  import opened Spans
  import opened SpanLinks

  datatype SpanRow = SpanRow(span: Span, depth: nat, offsetPct: real, widthPct: real)

  const MIN_WIDTH_PCT := 0.5

  // ---------------------------------------------------------------------------
  // Geometry
  // ---------------------------------------------------------------------------

  function End(s: Span): int {
    s.start + s.duration
  }

  /** The earliest start. */
  function MinStart(spans: seq<Span>): (m: int)
    requires spans != []
    ensures forall i :: 0 <= i < |spans| ==> m <= spans[i].start
    ensures exists i :: 0 <= i < |spans| && spans[i].start == m
  {
    if |spans| == 1 then spans[0].start
    else
      var m := MinStart(spans[1..]);
      assert forall i :: 0 < i < |spans| ==> spans[i] == spans[1..][i - 1];
      if spans[0].start < m then spans[0].start else m
  }

  /** The latest end. */
  function MaxEnd(spans: seq<Span>): (m: int)
    requires spans != []
    ensures forall i :: 0 <= i < |spans| ==> End(spans[i]) <= m
    ensures exists i :: 0 <= i < |spans| && End(spans[i]) == m
  {
    if |spans| == 1 then End(spans[0])
    else
      var m := MaxEnd(spans[1..]);
      assert forall i :: 0 < i < |spans| ==> spans[i] == spans[1..][i - 1];
      if End(spans[0]) > m then End(spans[0]) else m
  }

  /** The width of the chart; a trace without extent counts as one nanosecond. */
  function TotalRange(spans: seq<Span>): int
    requires spans != []
  {
    if MaxEnd(spans) == MinStart(spans) then 1 else MaxEnd(spans) - MinStart(spans)
  }

  function Percent(part: int, whole: int): real
    requires whole != 0
  {
    part as real / whole as real * 100.0
  }

  function OffsetPct(spans: seq<Span>, s: Span): real
    requires spans != []
  {
    Percent(s.start - MinStart(spans), TotalRange(spans))
  }

  /** The true width of a bar, before the minimum that keeps it visible. */
  function RawWidthPct(spans: seq<Span>, s: Span): real
    requires spans != []
  {
    Percent(s.duration, TotalRange(spans))
  }

  function RowOf(spans: seq<Span>, s: Span, depth: nat): SpanRow
    requires spans != []
  {
    var width := RawWidthPct(spans, s);
    SpanRow(s, depth, OffsetPct(spans, s), if width < MIN_WIDTH_PCT then MIN_WIDTH_PCT else width)
  }

  /** The trace starts at `first` and ends at `last`. */
  ghost predicate Extent(spans: seq<Span>, first: int, last: int) {
    && (forall i :: 0 <= i < |spans| ==> first <= spans[i].start && spans[i].start + spans[i].duration <= last)
    && (exists i :: 0 <= i < |spans| && spans[i].start == first)
    && (exists i :: 0 <= i < |spans| && spans[i].start + spans[i].duration == last)
  }

  /**
   The bar starts and is as wide as the span's times say, in percent of the trace's length (1 if it
   has none), and at least half a percent wide.
   */
  ghost predicate Drawn(row: SpanRow, first: int, last: int) {
    var length := if first == last then 1.0 else (last - first) as real;
    var width := 100.0 * row.span.duration as real / length;
    && row.offsetPct == 100.0 * (row.span.start - first) as real / length
    && row.widthPct == if width < 0.5 then 0.5 else width
  }

  lemma PercentIsPart(part: int, whole: int)
    requires whole != 0
    ensures Percent(part, whole) == 100.0 * part as real / whole as real
  {
  }

  lemma RowIsDrawn(spans: seq<Span>, s: Span, depth: nat, first: int, last: int)
    requires spans != [] && Extent(spans, first, last)
    ensures RowOf(spans, s, depth).span == s && RowOf(spans, s, depth).depth == depth
    ensures Drawn(RowOf(spans, s, depth), first, last)
  {
    hide Percent;
    assert MinStart(spans) == first && MaxEnd(spans) == last;
    PercentIsPart(s.start - first, TotalRange(spans));
    PercentIsPart(s.duration, TotalRange(spans));
  }

  lemma Ratio(part: real, whole: real)
    requires whole > 0.0
    ensures (0.0 <= part <==> 0.0 <= part / whole) && (part <= whole <==> part / whole <= 1.0)
  {
    var q := part / whole;
    assert part == q * whole;
    if q > 1.0 {
      assert (q - 1.0) * whole > 0.0;
    } else {
      assert (1.0 - q) * whole >= 0.0;
    }
  }

  lemma RatioFlips(part: real, whole: real)
    requires whole < 0.0
    ensures part / whole == (0.0 - part) / (0.0 - whole)
  {
    var q := part / whole;
    assert 0.0 - part == q * (0.0 - whole);
  }

  /** What part of the chart a percentage stands for. */
  lemma PercentRange(part: int, whole: int)
    requires whole != 0
    ensures 0.0 <= Percent(part, whole) <==> if whole > 0 then part >= 0 else part <= 0
    ensures Percent(part, whole) <= 100.0 <==> if whole > 0 then part <= whole else part >= whole
  {
    var p, w := part as real, whole as real;
    if whole > 0 {
      Ratio(p, w);
    } else {
      RatioFlips(p, w);
      Ratio(0.0 - p, 0.0 - w);
    }
  }

  lemma PercentSum(a: int, b: int, whole: int)
    requires whole != 0
    ensures Percent(a, whole) + Percent(b, whole) == Percent(a + b, whole)
  {
  }

  /** The bar of span `s`, at its true width, lies within the chart. */
  predicate BarFits(spans: seq<Span>, s: Span)
    requires spans != []
  {
    0.0 <= OffsetPct(spans, s) && OffsetPct(spans, s) + RawWidthPct(spans, s) <= 100.0
  }

  /** All spans start together and end together. */
  predicate Coincide(spans: seq<Span>) {
    forall i :: 0 <= i < |spans| ==> spans[i].start == spans[0].start && spans[i].duration == spans[0].duration
  }

  /**
   Every bar lies within the chart exactly when some span ends no earlier than the first one starts,
   or all spans coincide.
   */
  lemma {:induction false} BarsFitExactly(spans: seq<Span>)
    requires spans != []
    ensures (forall i :: 0 <= i < |spans| ==> BarFits(spans, spans[i])) <==> MaxEnd(spans) >= MinStart(spans) || Coincide(spans)
  {
    hide Percent, BarFits, MinStart, MaxEnd;
    forall i | 0 <= i < |spans|
      ensures BarFits(spans, spans[i]) <==>
        MaxEnd(spans) >= MinStart(spans) || (spans[i].start == MinStart(spans) && End(spans[i]) == MaxEnd(spans))
    {
      BarFitsWhen(spans, i);
    }
  }

  /**
   Two spans whose end time could not be read, so that it counts as 0 and their durations are
   negative: the later one's bar starts left of the chart.
   */
  lemma MissingEndTimesDoNotFit()
    ensures
      var spans := [Span("a", "", 10, -10), Span("b", "a", 20, -20)];
      !BarFits(spans, spans[1])
  {
    var spans := [Span("a", "", 10, -10), Span("b", "a", 20, -20)];
    assert spans[1..] == [Span("b", "a", 20, -20)];
    assert MinStart(spans) == 10 && MaxEnd(spans) == 0;
    BarFitsWhen(spans, 1);
  }

  /** In a trace without negative durations every bar fits, and starts inside the chart. */
  lemma {:induction false} ProperBarsFit(spans: seq<Span>, i: nat)
    requires i < |spans| && forall j :: 0 <= j < |spans| ==> spans[j].duration >= 0
    ensures BarFits(spans, spans[i]) && RawWidthPct(spans, spans[i]) >= 0.0
    ensures RowOf(spans, spans[i], 0).widthPct <= RawWidthPct(spans, spans[i]) + MIN_WIDTH_PCT
  {
    hide Percent, BarFits, MinStart, MaxEnd;
    assert End(spans[i]) >= spans[i].start;
    BarFitsWhen(spans, i);
    PercentRange(spans[i].duration, TotalRange(spans));
  }

  lemma {:induction false} BarFitsWhen(spans: seq<Span>, i: nat)
    requires i < |spans|
    ensures BarFits(spans, spans[i]) <==>
      MaxEnd(spans) >= MinStart(spans) || (spans[i].start == MinStart(spans) && End(spans[i]) == MaxEnd(spans))
  {
    hide Percent, MinStart, MaxEnd;
    var s, range := spans[i], TotalRange(spans);
    PercentSum(s.start - MinStart(spans), s.duration, range);
    PercentRange(s.start - MinStart(spans), range);
    PercentRange(End(s) - MinStart(spans), range);
  }

  // ---------------------------------------------------------------------------
  // The rows
  // ---------------------------------------------------------------------------

  ghost predicate InRange(spans: seq<Span>, v: seq<Visit>) {
    forall x :: 0 <= x < |v| ==> v[x].i < |spans|
  }

  /** One row for every visit. */
  ghost function RowsOf(spans: seq<Span>, v: seq<Visit>): (rows: seq<SpanRow>)
    requires InRange(spans, v)
    ensures |rows| == |v|
    ensures forall x :: 0 <= x < |v| ==> rows[x] == RowOf(spans, spans[v[x].i], v[x].depth)
  {
    if v == [] then [] else [RowOf(spans, spans[v[0].i], v[0].depth)] + RowsOf(spans, v[1..])
  }

  lemma RowsOfAppend(spans: seq<Span>, v: seq<Visit>, w: seq<Visit>)
    requires InRange(spans, v) && InRange(spans, w)
    ensures InRange(spans, v + w)
    ensures RowsOf(spans, v + w) == RowsOf(spans, v) + RowsOf(spans, w)
  {
    hide RowOf;
  }

  lemma WalkInRange(spans: seq<Span>, path: seq<nat>, kids: seq<nat>)
    requires NoChainRepeats(spans) && Chain(spans, path) && Continue(spans, path, kids)
    ensures InRange(spans, WalkAll(spans, path, kids))
  {
    hide WalkAll, Siblings, Sorted, GroupOf, NextGroup, NoChainRepeats;
    var v := WalkAll(spans, path, kids);
    forall x | 0 <= x < |v| ensures v[x].i < |spans| {
      var q, k := ChainOf(spans, path, kids, x);
    }
  }

  /** The rows of a span and of everything below it. */
  ghost function TreeRows(spans: seq<Span>, path: seq<nat>, i: nat): seq<SpanRow>
    requires NoChainRepeats(spans) && Chain(spans, path)
    requires i < |spans| && GroupOf(spans, i) == NextGroup(spans, path)
  {
    WalkOneInRange(spans, path, i);
    RowsOf(spans, Walk(spans, path, i))
  }

  /** The rows of the subtrees of `kids` from the `k`-th on. */
  ghost function TailRows(spans: seq<Span>, path: seq<nat>, kids: seq<nat>, k: nat): seq<SpanRow>
    requires NoChainRepeats(spans) && Chain(spans, path) && Continue(spans, path, kids) && k <= |kids|
  {
    WalkInRange(spans, path, kids[k..]);
    RowsOf(spans, WalkAll(spans, path, kids[k..]))
  }

  lemma WalkOneInRange(spans: seq<Span>, path: seq<nat>, i: nat)
    requires NoChainRepeats(spans) && Chain(spans, path)
    requires i < |spans| && GroupOf(spans, i) == NextGroup(spans, path)
    ensures InRange(spans, Walk(spans, path, i))
  {
    hide Siblings, Sorted, GroupOf, NextGroup, Chain, NoChainRepeats;
    assert Continue(spans, path, [i]);
    assert [i][1..] == [];
    WalkInRange(spans, path, [i]);
    assert WalkAll(spans, path, [i]) == Walk(spans, path, i) + [] == Walk(spans, path, i);
  }

  lemma TailSplits(spans: seq<Span>, path: seq<nat>, kids: seq<nat>, k: nat)
    requires NoChainRepeats(spans) && Chain(spans, path) && Continue(spans, path, kids)
    ensures k < |kids| ==> TailRows(spans, path, kids, k) == TreeRows(spans, path, kids[k]) + TailRows(spans, path, kids, k + 1)
    ensures k == |kids| ==> TailRows(spans, path, kids, k) == []
  {
    hide Walk, Siblings, GroupOf, Sorted, NextGroup, Chain, NoChainRepeats;
    if k < |kids| {
      WalkInRange(spans, path, kids[k..]);
      WalkInRange(spans, path, kids[k + 1..]);
      WalkOneInRange(spans, path, kids[k]);
      assert kids[k..][1..] == kids[k + 1..];
      RowsOfAppend(spans, Walk(spans, path, kids[k]), WalkAll(spans, path, kids[k + 1..]));
    }
  }

  /** The rows of a subtree are the span's own row, then those of its children's subtrees. */
  lemma TreeSplits(spans: seq<Span>, path: seq<nat>, i: nat)
    requires NoChainRepeats(spans) && Chain(spans, path)
    requires i < |spans| && GroupOf(spans, i) == NextGroup(spans, path)
    ensures Chain(spans, path + [i]) && |path| < |spans|
    ensures Continue(spans, path + [i], Siblings(spans, ChildrenOf(spans[i].id)))
    ensures TreeRows(spans, path, i)
         == [RowOf(spans, spans[i], |path|)] + TailRows(spans, path + [i], Siblings(spans, ChildrenOf(spans[i].id)), 0)
  {
    hide WalkAll, Siblings, GroupOf, Sorted, Chain, NoChainRepeats;
    ExtendChain(spans, path, i);
    ChainIsShort(spans, path + [i]);
    SiblingsContinue(spans, path + [i]);
    var kids := Siblings(spans, ChildrenOf(spans[i].id));
    assert kids[0..] == kids;
    WalkInRange(spans, path + [i], kids);
    RowsOfAppend(spans, [Visit(i, |path|)], WalkAll(spans, path + [i], kids));
  }

  function Lookup(m: map<string, seq<nat>>, id: string): seq<nat> {
    if id in m then m[id] else []
  }

  method IndexById(spans: seq<Span>) returns (spanById: map<string, nat>)
    ensures forall id :: id in spanById <==> HasId(spans, id)
  {
    spanById := map[];
    for i := 0 to |spans|
      invariant forall id :: id in spanById <==> HasId(spans[..i], id)
    {
      OneMoreId(spans, i);
      spanById := spanById[spans[i].id := i];
    }
    assert spans[..|spans|] == spans;
  }

  lemma OneMoreId(spans: seq<Span>, i: nat)
    requires i < |spans|
    ensures forall id :: HasId(spans[..i + 1], id) <==> HasId(spans[..i], id) || id == spans[i].id
  {
    var a, b := spans[..i], spans[..i + 1];
    assert b == a + [spans[i]];
    assert b[i] == spans[i];
    forall id | HasId(a, id) ensures HasId(b, id) {
      var j :| 0 <= j < |a| && a[j].id == id;
      assert b[j].id == id;
    }
  }

  /** The lists of children after the first `n` spans. */
  ghost predicate ChildrenSoFar(spans: seq<Span>, children: map<string, seq<nat>>, n: nat)
    requires n <= |spans|
  {
    forall id :: Lookup(children, id) == Select(spans, ChildrenOf(id), n)
  }

  lemma OneMoreChild(spans: seq<Span>, children: map<string, seq<nat>>, i: nat)
    requires i < |spans| && ChildrenSoFar(spans, children, i)
    ensures
      var parent := spans[i].parent;
      if IsRoot(spans, i) then
        ChildrenSoFar(spans, children, i + 1)
      else
        ChildrenSoFar(spans, children[parent := Lookup(children, parent) + [i]], i + 1)
  {
    hide HasId, IsRoot;
    var parent := spans[i].parent;
    forall id ensures Select(spans, ChildrenOf(id), i + 1)
                   == Select(spans, ChildrenOf(id), i) + if !IsRoot(spans, i) && id == parent then [i] else []
    {
    }
  }

  method GroupByParent(spans: seq<Span>, spanById: map<string, nat>) returns (roots: seq<nat>, children: map<string, seq<nat>>)
    requires forall id :: id in spanById <==> HasId(spans, id)
    ensures roots == Select(spans, Roots, |spans|) && ChildrenSoFar(spans, children, |spans|)
  {
    hide HasId, ChildrenSoFar;
    roots, children := [], map[];
    assert ChildrenSoFar(spans, children, 0) by { NoChildrenYet(spans); }
    for i := 0 to |spans|
      invariant roots == Select(spans, Roots, i) && ChildrenSoFar(spans, children, i)
    {
      OneMoreChild(spans, children, i);
      var parent := spans[i].parent;
      if parent == "" || parent !in spanById {
        roots := roots + [i];
      } else {
        children := children[parent := Lookup(children, parent) + [i]];
      }
    }
  }

  lemma NoChildrenYet(spans: seq<Span>)
    ensures ChildrenSoFar(spans, map[], 0)
  {
  }

  class RowBuilder {
    const spans: seq<Span>
    var childrenMap: map<string, seq<nat>>
    var roots: seq<nat>
    var rows: seq<SpanRow>

    /** Every list of children is complete, and sorted or not yet sorted. */
    ghost predicate Grouped()
      reads this`childrenMap
    {
      forall id ::
        || Lookup(childrenMap, id) == Select(spans, ChildrenOf(id), |spans|)
        || Lookup(childrenMap, id) == Siblings(spans, ChildrenOf(id))
    }

    constructor (spans: seq<Span>)
      ensures this.spans == spans && rows == []
      ensures roots == Siblings(spans, Roots) && Grouped()
    {
      hide Select, SortByStart;
      var ids := IndexById(spans);
      var top, children := GroupByParent(spans, ids);
      this.spans := spans;
      this.rows := [];
      this.childrenMap := children;
      this.roots := SortByStart(spans, top);
    }

    /** Append the row of a span and the rows below it. */
    method Walk(i: nat, depth: nat, ghost path: seq<nat>)
      requires NoChainRepeats(spans) && Grouped()
      requires Chain(spans, path) && |path| == depth
      requires i < |spans| && GroupOf(spans, i) == NextGroup(spans, path)
      modifies this`rows, this`childrenMap
      ensures Grouped()
      ensures rows == old(rows) + TreeRows(spans, path, i)
      decreases |spans| - |path|
    {
      hide RowOf, TreeRows, TailRows, Siblings, GroupOf, Chain, Sorted, Grouped, NoChainRepeats;
      ghost var target := rows + TreeRows(spans, path, i);
      rows := rows + [RowOf(spans, spans[i], depth)];
      var children := SortChildren(spans[i].id);
      TreeSplits(spans, path, i);
      ghost var longer := path + [i];
      var k := 0;
      while k < |children|
        invariant k <= |children| && Grouped()
        invariant rows + TailRows(spans, longer, children, k) == target
      {
        TailSplits(spans, longer, children, k);
        Walk(children[k], depth + 1, longer);
        k := k + 1;
      }
      TailSplits(spans, longer, children, k);
    }

    /** Sort the children of one span in place. */
    method SortChildren(id: string) returns (children: seq<nat>)
      requires Grouped()
      modifies this`childrenMap
      ensures Grouped()
      ensures children == Siblings(spans, ChildrenOf(id))
    {
      hide Select, SortByStart, Sorted;
      SiblingsFacts(spans, ChildrenOf(id));
      SortingTwice(spans, Siblings(spans, ChildrenOf(id)));
      var list := Lookup(childrenMap, id);
      assert Indices(spans, list);
      children := SortByStart(spans, list);
      if id in childrenMap {
        childrenMap := childrenMap[id := children];
      }
    }
  }

  /** Sorting a sorted list leaves it alone. */
  lemma {:induction false} SortingTwice(spans: seq<Span>, s: seq<nat>)
    requires Sorted(spans, s)
    ensures SortByStart(spans, s) == s
  {
    if s != [] {
      var n := |s| - 1;
      SortingTwice(spans, s[..n]);
      assert n > 0 ==> Before(spans, s[n - 1], s[n]);
      assert Insert(spans, s[..n], s[n]) == s[..n] + [s[n]] == s;
    }
  }

  ghost predicate HasRow(rows: seq<SpanRow>, s: Span) {
    exists x :: 0 <= x < |rows| && rows[x].span == s
  }

  ghost predicate HasTopRow(rows: seq<SpanRow>, s: Span) {
    exists x :: 0 <= x < |rows| && rows[x].span == s && rows[x].depth == 0
  }

  lemma EveryRowIsDrawn(spans: seq<Span>, v: seq<Visit>, first: int, last: int)
    requires InRange(spans, v) && Extent(spans, first, last)
    ensures forall x :: 0 <= x < |v| ==> Drawn(RowsOf(spans, v)[x], first, last)
  {
    hide RowOf, Drawn, Extent, RowsOf;
    forall x | 0 <= x < |v| ensures Drawn(RowsOf(spans, v)[x], first, last) {
      RowIsDrawn(spans, spans[v[x].i], v[x].depth, first, last);
    }
  }

  /** What the rows show of which spans. */
  lemma RowsShow(spans: seq<Span>, i: nat)
    requires NoChainRepeats(spans) && InRange(spans, Flatten(spans)) && i < |spans|
    ensures Top(spans, i) ==> HasTopRow(RowsOf(spans, Flatten(spans)), spans[i])
    ensures DistinctIds(spans) ==> (HasRow(RowsOf(spans, Flatten(spans)), spans[i]) <==> !RunsIntoCycle(spans, i))
  {
    hide Flatten, NoChainRepeats, RunsIntoCycle, Top, RowsOf, OffsetPct, RawWidthPct;
    var v, rows := Flatten(spans), RowsOf(spans, Flatten(spans));
    if Top(spans, i) {
      TopIsShown(spans, i);
      var x :| 0 <= x < |v| && v[x] == Visit(i, 0);
      assert rows[x].span == spans[i];
    }
    if DistinctIds(spans) {
      MissingExactly(spans, i);
      if Shown(spans, i) {
        var x :| 0 <= x < |v| && v[x].i == i;
        assert rows[x].span == spans[i];
      }
      if HasRow(rows, spans[i]) {
        var x :| 0 <= x < |rows| && rows[x].span == spans[i];
        assert v[x].i == i;
      }
    }
  }

  lemma RowsMean(spans: seq<Span>, rows: seq<SpanRow>)
    requires NoChainRepeats(spans) && InRange(spans, Flatten(spans)) && rows == RowsOf(spans, Flatten(spans))
    ensures forall x, first, last :: 0 <= x < |rows| && Extent(spans, first, last) ==> Drawn(rows[x], first, last)
    ensures forall i :: 0 <= i < |spans| && Top(spans, i) ==> HasTopRow(rows, spans[i])
    ensures DistinctIds(spans) ==> forall i :: 0 <= i < |spans| ==> (HasRow(rows, spans[i]) <==> !RunsIntoCycle(spans, i))
  {
    hide NoChainRepeats, Flatten, RowsOf, Extent, Drawn, Top, RunsIntoCycle, HasRow, HasTopRow, InRange;
    forall first, last | Extent(spans, first, last) ensures forall x :: 0 <= x < |rows| ==> Drawn(rows[x], first, last) {
      EveryRowIsDrawn(spans, Flatten(spans), first, last);
    }
    forall i | 0 <= i < |spans|
      ensures Top(spans, i) ==> HasTopRow(rows, spans[i])
      ensures DistinctIds(spans) ==> (HasRow(rows, spans[i]) <==> !RunsIntoCycle(spans, i))
    {
      RowsShow(spans, i);
    }
  }

  /**
   Flattening as the page does it: one row per visit, each bar drawn to the span's times. A span that
   names no parent in the trace has a row at depth 0; and with distinct ids a span has a row exactly
   if its parent ids do not run into a cycle.
   */
  method BuildSpanRows(spans: seq<Span>) returns (rows: seq<SpanRow>)
    requires NoChainRepeats(spans)
    ensures InRange(spans, Flatten(spans)) && rows == RowsOf(spans, Flatten(spans))
    ensures forall x, first, last :: 0 <= x < |rows| && Extent(spans, first, last) ==> Drawn(rows[x], first, last)
    ensures forall i :: 0 <= i < |spans| && Top(spans, i) ==> HasTopRow(rows, spans[i])
    ensures DistinctIds(spans) ==> forall i :: 0 <= i < |spans| ==> (HasRow(rows, spans[i]) <==> !RunsIntoCycle(spans, i))
  {
    hide RowOf, TreeRows, TailRows, GroupOf, Sorted, Siblings, Flatten, RowsOf, InRange, Chain, RowBuilder.Grouped,
      NoChainRepeats, DistinctIds, Extent, Drawn, Top, RunsIntoCycle, HasRow, HasTopRow;
    FlattenRows(spans);
    RowsMean(spans, RowsOf(spans, Flatten(spans)));
    if |spans| == 0 {
      return [];
    }
    var builder := new RowBuilder(spans);
    var roots := builder.roots;
    RootsFollow(spans, roots);
    var k := 0;
    while k < |roots|
      invariant k <= |roots| && builder.Grouped() && builder.spans == spans
      invariant builder.rows + TailRows(spans, [], roots, k) == RowsOf(spans, Flatten(spans))
    {
      TailSplits(spans, [], roots, k);
      builder.Walk(roots[k], 0, []);
      k := k + 1;
    }
    TailSplits(spans, [], roots, k);
    rows := builder.rows;
  }

  lemma RootsFollow(spans: seq<Span>, roots: seq<nat>)
    requires roots == Siblings(spans, Roots)
    ensures forall k :: 0 <= k < |roots| ==> roots[k] < |spans| && GroupOf(spans, roots[k]) == Roots
  {
    SiblingsContinue(spans, []);
  }

  lemma FlattenRows(spans: seq<Span>)
    requires NoChainRepeats(spans)
    ensures Chain(spans, []) && Continue(spans, [], Siblings(spans, Roots)) && InRange(spans, Flatten(spans))
    ensures RowsOf(spans, Flatten(spans)) == TailRows(spans, [], Siblings(spans, Roots), 0)
    ensures spans == [] ==> Siblings(spans, Roots) == [] && RowsOf(spans, Flatten(spans)) == []
  {
    SiblingsContinue(spans, []);
    WalkInRange(spans, [], Siblings(spans, Roots));
    assert Siblings(spans, Roots)[0..] == Siblings(spans, Roots);
  }
}
