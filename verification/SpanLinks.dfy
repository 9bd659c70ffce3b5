/**
 Which spans the trace page shows, and in which order, told from the spans' ids, parent ids and start
 times alone.
 */
module SpanLinks {
  import opened Common
  import opened Spans

  /** Span `p` carries the id that span `i` names as its parent. */
  predicate IsParent(spans: seq<Span>, p: nat, i: nat)
    requires p < |spans| && i < |spans|
  {
    spans[i].parent != "" && spans[p].id == spans[i].parent
  }

  /** No span of the trace is its parent: it names none, or one that was not fetched. */
  predicate Top(spans: seq<Span>, i: nat)
    requires i < |spans|
  {
    forall p :: 0 <= p < |spans| ==> !IsParent(spans, p, i)
  }

  /** From a top span down, each span a parent of the next. */
  ghost predicate Lineage(spans: seq<Span>, q: seq<nat>) {
    && q != [] && Indices(spans, q) && Top(spans, q[0])
    && forall k :: 0 < k < |q| ==> IsParent(spans, q[k - 1], q[k])
  }

  ghost predicate HasLineage(spans: seq<Span>, i: nat) {
    exists q :: Lineage(spans, q) && q[|q| - 1] == i
  }

  ghost predicate Shown(spans: seq<Span>, i: nat)
    requires NoChainRepeats(spans)
  {
    exists x :: 0 <= x < |Flatten(spans)| && Flatten(spans)[x].i == i
  }

  // ---------------------------------------------------------------------------
  // Chains
  // ---------------------------------------------------------------------------

  lemma TopIsRoot(spans: seq<Span>, i: nat)
    requires i < |spans|
    ensures Top(spans, i) <==> IsRoot(spans, i)
  {
    if HasId(spans, spans[i].parent) && spans[i].parent != "" {
      var p :| 0 <= p < |spans| && spans[p].id == spans[i].parent;
      assert IsParent(spans, p, i);
    }
  }

  lemma ParentIsGroup(spans: seq<Span>, p: nat, i: nat)
    requires p < |spans| && i < |spans|
    ensures IsParent(spans, p, i) <==> GroupOf(spans, i) == ChildrenOf(spans[p].id)
  {
    TopIsRoot(spans, i);
  }

  lemma {:induction false} ChainIsLineage(spans: seq<Span>, q: seq<nat>)
    requires q != []
    ensures Chain(spans, q) <==> Lineage(spans, q)
  {
    hide Top, IsParent, GroupOf, IsRoot;
    var n := |q| - 1;
    if n == 0 {
      assert q[..0] == [] && Chain(spans, []);
      if q[0] < |spans| {
        RootsAreTop(spans, q[0]);
      }
    } else {
      ChainIsLineage(spans, q[..n]);
      if q[n] < |spans| && q[n - 1] < |spans| {
        ParentIsGroup(spans, q[n - 1], q[n]);
      }
      if Lineage(spans, q) {
        assert Lineage(spans, q[..n]);
      }
      if Chain(spans, q) {
        assert Lineage(spans, q[..n]) && q[n] < |spans| && IsParent(spans, q[n - 1], q[n]);
        assert forall k :: 0 <= k < n ==> q[..n][k] == q[k];
        assert q[..n][0] == q[0];
      }
    }
  }

  lemma RootsAreTop(spans: seq<Span>, i: nat)
    requires i < |spans|
    ensures Top(spans, i) <==> GroupOf(spans, i) == Roots
  {
    TopIsRoot(spans, i);
  }

  /** Whenever the recursion is bounded, exactly the spans with a lineage are shown. */
  lemma ShownExactly(spans: seq<Span>, i: nat)
    requires NoChainRepeats(spans)
    ensures Shown(spans, i) <==> HasLineage(spans, i)
  {
    hide Flatten, Chain, Lineage, NoChainRepeats;
    FlattenIsExact(spans, i);
    if q :| q != [] && Chain(spans, q) && q[|q| - 1] == i {
      ChainIsLineage(spans, q);
    }
    if HasLineage(spans, i) {
      var q := LineageOf(spans, i);
      ChainIsLineage(spans, q);
    }
  }

  lemma LineageOf(spans: seq<Span>, i: nat) returns (q: seq<nat>)
    requires HasLineage(spans, i)
    ensures q != [] && Lineage(spans, q) && q[|q| - 1] == i
  {
    q :| Lineage(spans, q) && q[|q| - 1] == i;
  }

  /** The recursion is bounded exactly when no lineage repeats an id. */
  lemma BoundedExactly(spans: seq<Span>)
    ensures NoChainRepeats(spans) <==>
      forall q, a: nat, b: nat :: Lineage(spans, q) && a < b < |q| ==> spans[q[a]].id != spans[q[b]].id
  {
    hide Chain, Top, IsParent;
    if NoChainRepeats(spans) {
      forall q, a: nat, b: nat | Lineage(spans, q) && a < b < |q| ensures spans[q[a]].id != spans[q[b]].id {
        ChainIsLineage(spans, q);
        assert !RepeatsId(spans, q, a, b);
      }
    } else {
      var q, a: nat, b: nat :| Chain(spans, q) && RepeatsId(spans, q, a, b);
      ChainIsLineage(spans, q);
    }
  }

  /** A span that names no parent, or one that is not in the trace, is shown, and at depth 0. */
  lemma TopIsShown(spans: seq<Span>, i: nat)
    requires NoChainRepeats(spans) && i < |spans| && Top(spans, i)
    ensures Visit(i, 0) in Flatten(spans)
  {
    hide Flatten, Top, Chain, NoChainRepeats, VisitsChain;
    assert Lineage(spans, [i]);
    ChainIsLineage(spans, [i]);
    var chains := VisitsAreChains(spans);
    assert [i] in chains;
    var x :| 0 <= x < |chains| && chains[x] == [i];
    assert Flatten(spans)[x] == Visit(i, 0) by { ChainOfOne(Flatten(spans)[x], i); }
  }

  lemma ChainOfOne(v: Visit, i: nat)
    ensures VisitsChain(v, [i]) ==> v == Visit(i, 0)
  {
  }

  // ---------------------------------------------------------------------------
  // Cycles
  // ---------------------------------------------------------------------------

  /** From a span up, each span followed by a parent of it. */
  ghost predicate Climb(spans: seq<Span>, u: seq<nat>) {
    u != [] && Indices(spans, u) && forall k :: 0 < k < |u| ==> IsParent(spans, u[k], u[k - 1])
  }

  ghost predicate ClimbsRound(spans: seq<Span>, u: seq<nat>, a: nat, b: nat) {
    Climb(spans, u) && a < b < |u| && u[a] == u[b]
  }

  /** Following parent ids from the span comes back to a span it has passed. */
  ghost predicate RunsIntoCycle(spans: seq<Span>, i: nat) {
    exists u, a: nat, b: nat :: ClimbsRound(spans, u, a, b) && u[0] == i
  }

  /** With distinct ids a climb goes up the span's lineage. */
  lemma {:induction false} ClimbFollowsLineage(spans: seq<Span>, q: seq<nat>, u: seq<nat>, k: nat)
    requires DistinctIds(spans) && Lineage(spans, q) && Climb(spans, u) && u[0] == q[|q| - 1] && k < |u|
    ensures k < |q| && u[k] == q[|q| - 1 - k]
  {
    if k > 0 {
      ClimbFollowsLineage(spans, q, u, k - 1);
      assert IsParent(spans, u[k], u[k - 1]);
      if k < |q| {
        assert IsParent(spans, q[|q| - 1 - k], q[|q| - k]);
      }
    }
  }

  lemma ClimbHasNoRepeats(spans: seq<Span>, q: seq<nat>, u: seq<nat>, a: nat, b: nat)
    requires DistinctIds(spans) && Lineage(spans, q) && Climb(spans, u) && u[0] == q[|q| - 1] && a < b < |u|
    ensures u[a] != u[b]
  {
    hide DistinctIds, Chain, IsParent, Top;
    ClimbFollowsLineage(spans, q, u, a);
    ClimbFollowsLineage(spans, q, u, b);
    ChainIsLineage(spans, q);
    ChainHasNoRepeats(spans, q, |q| - 1 - b, |q| - 1 - a);
  }

  /** A lineage does not come back to a span. */
  lemma LineageHasNoCycle(spans: seq<Span>, i: nat)
    requires DistinctIds(spans) && HasLineage(spans, i)
    ensures !RunsIntoCycle(spans, i)
  {
    hide Lineage, Climb, DistinctIds;
    var q := LineageOf(spans, i);
    forall u, a: nat, b: nat | ClimbsRound(spans, u, a, b) ensures u[0] != i {
      if u[0] == i {
        ClimbHasNoRepeats(spans, q, u, a, b);
      }
    }
  }

  /** A span without a lineage has a parent without one. */
  lemma NoLineageAbove(spans: seq<Span>, i: nat) returns (p: nat)
    requires i < |spans| && !HasLineage(spans, i)
    ensures p < |spans| && IsParent(spans, p, i) && !HasLineage(spans, p)
  {
    hide HasLineage;
    TopHasLineage(spans, i);
    p :| 0 <= p < |spans| && IsParent(spans, p, i);
    LineageGoesOn(spans, p, i);
  }

  lemma TopHasLineage(spans: seq<Span>, i: nat)
    requires i < |spans|
    ensures Top(spans, i) ==> HasLineage(spans, i)
  {
    if Top(spans, i) {
      assert Lineage(spans, [i]);
    }
  }

  lemma LineageGoesOn(spans: seq<Span>, p: nat, i: nat)
    requires p < |spans| && i < |spans| && IsParent(spans, p, i)
    ensures HasLineage(spans, p) ==> HasLineage(spans, i)
  {
    hide IsParent, Top;
    if HasLineage(spans, p) {
      var q := LineageOf(spans, p);
      assert Lineage(spans, q + [i]);
    }
  }

  /** So it can be climbed from as far as one likes. */
  lemma {:induction false} ClimbOn(spans: seq<Span>, i: nat, n: nat) returns (u: seq<nat>)
    requires i < |spans| && !HasLineage(spans, i)
    ensures Climb(spans, u) && u[0] == i && |u| == n + 1 && !HasLineage(spans, u[n])
  {
    hide HasLineage, IsParent;
    if n == 0 {
      u := [i];
    } else {
      var below := ClimbOn(spans, i, n - 1);
      var p := NoLineageAbove(spans, below[n - 1]);
      u := below + [p];
    }
  }

  lemma Recurrence(u: seq<nat>, n: nat) returns (a: nat, b: nat)
    requires |u| > n && forall k :: 0 <= k < |u| ==> u[k] < n
    ensures a < b < |u| && u[a] == u[b]
  {
    if NoRepeats(u) {
      Pigeonhole(u, n);
    }
    a, b :| 0 <= a < b < |u| && u[a] == u[b];
  }

  lemma NoLineageIsCycle(spans: seq<Span>, i: nat)
    requires i < |spans| && !HasLineage(spans, i)
    ensures RunsIntoCycle(spans, i)
  {
    hide HasLineage, IsParent, Top;
    var u := ClimbOn(spans, i, |spans|);
    var a, b := Recurrence(u, |spans|);
    assert ClimbsRound(spans, u, a, b);
  }

  /** With distinct ids a span is missing from the page exactly when its parent ids run into a cycle. */
  lemma MissingExactly(spans: seq<Span>, i: nat)
    requires DistinctIds(spans) && i < |spans|
    ensures NoChainRepeats(spans) && (!Shown(spans, i) <==> RunsIntoCycle(spans, i))
  {
    hide Shown, HasLineage, RunsIntoCycle, NoChainRepeats, DistinctIds;
    DepthIsBoundedExactly(spans, 0);
    ShownExactly(spans, i);
    if HasLineage(spans, i) {
      LineageHasNoCycle(spans, i);
    } else {
      NoLineageIsCycle(spans, i);
    }
  }

  /** Two spans that name each other as their parent: the page shows neither. */
  lemma CycleIsNotShown()
    ensures
      var spans := [Span("a", "b", 0, 1), Span("b", "a", 0, 1)];
      NoChainRepeats(spans) && !Shown(spans, 0) && !Shown(spans, 1)
  {
    hide Shown, NoChainRepeats;
    var spans := [Span("a", "b", 0, 1), Span("b", "a", 0, 1)];
    MissingExactly(spans, 0);
    MissingExactly(spans, 1);
    assert ClimbsRound(spans, [0, 1, 0], 0, 2) && ClimbsRound(spans, [1, 0, 1], 0, 2);
  }

  // ---------------------------------------------------------------------------
  // All spans
  // ---------------------------------------------------------------------------

  /** A rank that grows along parent links, as start times do in a trace where children start later. */
  ghost predicate Ranks(spans: seq<Span>, rank: seq<int>) {
    && |rank| == |spans|
    && forall p, i :: 0 <= p < |spans| && 0 <= i < |spans| && IsParent(spans, p, i) ==> rank[p] < rank[i]
  }

  lemma {:induction false} RankFalls(spans: seq<Span>, rank: seq<int>, u: seq<nat>, a: nat, b: nat)
    requires Ranks(spans, rank) && Climb(spans, u) && a < b < |u|
    ensures rank[u[b]] < rank[u[a]]
  {
    hide IsParent;
    assert IsParent(spans, u[b], u[b - 1]);
    if a < b - 1 {
      RankFalls(spans, rank, u, a, b - 1);
    }
  }

  /** With distinct ids every span is shown, each once, exactly when no parent links form a cycle. */
  lemma AllShownExactly(spans: seq<Span>)
    requires DistinctIds(spans)
    ensures NoChainRepeats(spans)
    ensures (forall i :: 0 <= i < |spans| ==> Shown(spans, i)) <==> exists rank :: Ranks(spans, rank)
    ensures forall x, y :: 0 <= x < y < |Flatten(spans)| ==> Flatten(spans)[x].i != Flatten(spans)[y].i
  {
    hide Shown, DistinctIds, NoChainRepeats, Flatten, Chain, Ranks;
    DepthIsBoundedExactly(spans, 0);
    FlattenIsExact(spans, 0);
    if rank :| Ranks(spans, rank) {
      forall i | 0 <= i < |spans| ensures Shown(spans, i) {
        MissingExactly(spans, i);
        RankedHasNoCycle(spans, rank, i);
      }
    }
    if forall i :: 0 <= i < |spans| ==> Shown(spans, i) {
      var rank := DepthsRank(spans);
    }
  }

  lemma RankedHasNoCycle(spans: seq<Span>, rank: seq<int>, i: nat)
    requires Ranks(spans, rank)
    ensures !RunsIntoCycle(spans, i)
  {
    hide Climb, IsParent;
    if RunsIntoCycle(spans, i) {
      var u, a: nat, b: nat :| ClimbsRound(spans, u, a, b) && u[0] == i;
      RankFalls(spans, rank, u, a, b);
    }
  }

  /** The depth at which each span is shown. */
  lemma DepthsRank(spans: seq<Span>) returns (rank: seq<int>)
    requires DistinctIds(spans) && NoChainRepeats(spans) && forall i :: 0 <= i < |spans| ==> Shown(spans, i)
    ensures Ranks(spans, rank)
  {
    hide DistinctIds, NoChainRepeats, Flatten, IsParent;
    rank := [];
    while |rank| < |spans|
      invariant |rank| <= |spans|
      invariant forall i :: 0 <= i < |rank| ==> IsDepth(spans, i, rank[i])
    {
      var depth := DepthOf(spans, |rank|);
      rank := rank + [depth];
    }
    forall p, i | 0 <= p < |spans| && 0 <= i < |spans| && IsParent(spans, p, i) ensures rank[p] < rank[i] {
      ChildIsDeeper(spans, p, i, rank[p], rank[i]);
    }
  }

  ghost predicate IsDepth(spans: seq<Span>, i: nat, depth: int) {
    exists q :: Lineage(spans, q) && q[|q| - 1] == i && |q| - 1 == depth
  }

  lemma DepthOf(spans: seq<Span>, i: nat) returns (depth: int)
    requires NoChainRepeats(spans) && Shown(spans, i)
    ensures IsDepth(spans, i, depth)
  {
    hide Flatten, NoChainRepeats, Lineage;
    ShownExactly(spans, i);
    var q := LineageOf(spans, i);
    depth := |q| - 1;
  }

  lemma ChildIsDeeper(spans: seq<Span>, p: nat, i: nat, above: int, below: int)
    requires DistinctIds(spans) && p < |spans| && i < |spans| && IsParent(spans, p, i)
    requires IsDepth(spans, p, above) && IsDepth(spans, i, below)
    ensures above < below
  {
    hide DistinctIds, Chain;
    var q :| Lineage(spans, q) && q[|q| - 1] == p && |q| - 1 == above;
    var r :| Lineage(spans, r) && r[|r| - 1] == i && |r| - 1 == below;
    assert Lineage(spans, q + [i]);
    hide Lineage;
    ChainIsLineage(spans, q + [i]);
    ChainIsLineage(spans, r);
    ChainIsUnique(spans, q + [i], r);
  }

  // ---------------------------------------------------------------------------
  // The order
  // ---------------------------------------------------------------------------

  /** Both are top spans, or both name the same parent that is in the trace. */
  predicate AreSiblings(spans: seq<Span>, i: nat, j: nat)
    requires i < |spans| && j < |spans|
  {
    if Top(spans, i) then Top(spans, j) else spans[i].parent == spans[j].parent
  }

  /** Earlier in the trace: by start time, ties by position. */
  predicate Earlier(spans: seq<Span>, i: nat, j: nat)
    requires i < |spans| && j < |spans|
  {
    spans[i].start <= spans[j].start && (spans[i].start == spans[j].start ==> i < j)
  }

  /** Shown at `y`, its parent, one level up, and everything shown between them is deeper than the parent. */
  ghost predicate ShownParent(spans: seq<Span>, v: seq<Visit>, y: nat, x: nat) {
    && y < x < |v| && v[y].i < |spans| && v[x].i < |spans|
    && IsParent(spans, v[y].i, v[x].i) && v[x].depth == v[y].depth + 1
    && forall z :: y < z < x ==> v[z].depth > v[y].depth
  }

  lemma SiblingsAreGrouped(spans: seq<Span>, i: nat, j: nat)
    requires i < |spans| && j < |spans|
    ensures AreSiblings(spans, i, j) <==> GroupOf(spans, i) == GroupOf(spans, j)
  {
    TopIsRoot(spans, i);
    TopIsRoot(spans, j);
  }

  /**
   The page's order: depth 0 for the top spans, any other span below its parent and one deeper; and
   with distinct ids siblings by start time, ties in input order.
   */
  lemma ShownInOrder(spans: seq<Span>)
    requires NoChainRepeats(spans)
    ensures
      var v := Flatten(spans);
      && (forall x :: 0 <= x < |v| ==> v[x].i < |spans|)
      && (forall x :: 0 <= x < |v| ==> (v[x].depth == 0 <==> Top(spans, v[x].i)))
      && (forall x :: 0 <= x < |v| && v[x].depth > 0 ==> exists y :: ShownParent(spans, v, y, x))
      && (DistinctIds(spans) ==>
            forall x, y :: 0 <= x < y < |v| && AreSiblings(spans, v[x].i, v[y].i) ==> Earlier(spans, v[x].i, v[y].i))
  {
    hide Flatten, NoChainRepeats, DistinctIds, GroupOf, Top, AreSiblings;
    FlattenIsPreorder(spans);
    var v := Flatten(spans);
    forall x | 0 <= x < |v| ensures v[x].depth == 0 <==> Top(spans, v[x].i) {
      TopIsRoot(spans, v[x].i);
    }
    forall x | 0 <= x < |v| && v[x].depth > 0 ensures exists y :: ShownParent(spans, v, y, x) {
      var y: nat :| ParentVisit(spans, v, y, x);
      ParentIsGroup(spans, v[y].i, v[x].i);
      assert ShownParent(spans, v, y, x);
    }
    if DistinctIds(spans) {
      forall x, y | 0 <= x < y < |v| && AreSiblings(spans, v[x].i, v[y].i) ensures Earlier(spans, v[x].i, v[y].i) {
        SiblingsAreGrouped(spans, v[x].i, v[y].i);
        assert Before(spans, v[x].i, v[y].i);
      }
    }
  }
}
