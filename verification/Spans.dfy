/**
 The trace page's flattening of a span forest: group the spans by parent, sort siblings by start
 time, and walk the trees from the roots.

 Parent links come from the outside and may form cycles; spans on or below a cycle are not
 reached. Spans are referred to by their position in the input.
 */
module Spans {
  import opened Common

  datatype Span = Span(id: string, parent: string, start: int, duration: int)

  ghost predicate DistinctIds(spans: seq<Span>) {
    forall i, j :: 0 <= i < |spans| && 0 <= j < |spans| && spans[i].id == spans[j].id ==> i == j
  }

  predicate HasId(spans: seq<Span>, id: string) {
    exists j :: 0 <= j < |spans| && spans[j].id == id
  }

  predicate IsRoot(spans: seq<Span>, i: nat)
    requires i < |spans|
  {
    spans[i].parent == "" || !HasId(spans, spans[i].parent)
  }

  /** A group of siblings: the roots, or the children of one span id. */
  datatype Group = Roots | ChildrenOf(id: string)

  function GroupOf(spans: seq<Span>, i: nat): Group
    requires i < |spans|
  {
    if IsRoot(spans, i) then Roots else ChildrenOf(spans[i].parent)
  }

  // ---------------------------------------------------------------------------
  // Sibling order
  // ---------------------------------------------------------------------------

  /** Ordered by start time; spans with equal starts keep their input order. */
  predicate Before(spans: seq<Span>, i: nat, j: nat)
    requires i < |spans| && j < |spans|
  {
    spans[i].start < spans[j].start || (spans[i].start == spans[j].start && i < j)
  }

  ghost predicate Indices(spans: seq<Span>, s: seq<nat>) {
    forall k :: 0 <= k < |s| ==> s[k] < |spans|
  }

  ghost predicate Sorted(spans: seq<Span>, s: seq<nat>) {
    Indices(spans, s) && forall a, b :: 0 <= a < b < |s| ==> Before(spans, s[a], s[b])
  }

  /** The first `n` spans that belong to the group, in input order. */
  function Select(spans: seq<Span>, g: Group, n: nat): (s: seq<nat>)
    requires n <= |spans|
    ensures forall k :: 0 <= k < |s| ==> s[k] < n
  {
    if n == 0 then []
    else Select(spans, g, n - 1) + if GroupOf(spans, n - 1) == g then [n - 1] else []
  }

  /** Insert `x` after everything that starts no later. */
  function Insert(spans: seq<Span>, s: seq<nat>, x: nat): (r: seq<nat>)
    requires Indices(spans, s) && x < |spans|
    ensures Indices(spans, r)
  {
    if s == [] || spans[s[|s| - 1]].start <= spans[x].start then s + [x]
    else Insert(spans, s[..|s| - 1], x) + [s[|s| - 1]]
  }

  /** The stable sort by start time. */
  function SortByStart(spans: seq<Span>, s: seq<nat>): (r: seq<nat>)
    requires Indices(spans, s)
    ensures Indices(spans, r)
  {
    if s == [] then [] else Insert(spans, SortByStart(spans, s[..|s| - 1]), s[|s| - 1])
  }

  function Siblings(spans: seq<Span>, g: Group): (r: seq<nat>)
    ensures Indices(spans, r)
  {
    SortByStart(spans, Select(spans, g, |spans|))
  }

  lemma {:induction false} SelectFacts(spans: seq<Span>, g: Group, n: nat)
    requires n <= |spans|
    ensures forall i :: i in Select(spans, g, n) <==> 0 <= i < n && GroupOf(spans, i) == g
  {
    if n > 0 {
      SelectFacts(spans, g, n - 1);
    }
  }

  lemma {:induction false} InsertKeepsBefore(spans: seq<Span>, s: seq<nat>, x: nat, y: nat)
    requires Indices(spans, s) && x < |spans| && y < |spans|
    requires Before(spans, x, y) && forall k :: 0 <= k < |s| ==> Before(spans, s[k], y)
    ensures forall k :: 0 <= k < |Insert(spans, s, x)| ==> Before(spans, Insert(spans, s, x)[k], y)
  {
    if s != [] && spans[s[|s| - 1]].start > spans[x].start {
      InsertKeepsBefore(spans, s[..|s| - 1], x, y);
    }
  }

  lemma {:induction false} InsertIsSorted(spans: seq<Span>, s: seq<nat>, x: nat)
    requires Sorted(spans, s) && x < |spans| && forall k :: 0 <= k < |s| ==> s[k] < x
    ensures Sorted(spans, Insert(spans, s, x))
  {
    if s != [] && spans[s[|s| - 1]].start > spans[x].start {
      var n := |s| - 1;
      InsertIsSorted(spans, s[..n], x);
      InsertKeepsBefore(spans, s[..n], x, s[n]);
    }
  }

  lemma {:induction false} InsertMembers(spans: seq<Span>, s: seq<nat>, x: nat, i: nat)
    requires Indices(spans, s) && x < |spans|
    ensures i in Insert(spans, s, x) <==> i in s || i == x
  {
    if s != [] && spans[s[|s| - 1]].start > spans[x].start {
      var n := |s| - 1;
      InsertMembers(spans, s[..n], x, i);
      assert s == s[..n] + [s[n]];
    }
  }

  lemma {:induction false} SortMembers(spans: seq<Span>, s: seq<nat>, i: nat)
    requires Indices(spans, s)
    ensures i in SortByStart(spans, s) <==> i in s
  {
    if s != [] {
      var n := |s| - 1;
      SortMembers(spans, s[..n], i);
      InsertMembers(spans, SortByStart(spans, s[..n]), s[n], i);
      assert s == s[..n] + [s[n]];
    }
  }

  ghost predicate Increasing(s: seq<nat>) {
    forall a, b :: 0 <= a < b < |s| ==> s[a] < s[b]
  }

  /** Sorting an increasing list is stable: ties stay in input order. */
  lemma {:induction false} SortIsStable(spans: seq<Span>, s: seq<nat>)
    requires Indices(spans, s) && Increasing(s)
    ensures Sorted(spans, SortByStart(spans, s))
  {
    if s != [] {
      var n := |s| - 1;
      var r := SortByStart(spans, s[..n]);
      SortIsStable(spans, s[..n]);
      forall k | 0 <= k < |r| ensures r[k] < s[n] {
        SortMembers(spans, s[..n], r[k]);
        var a :| 0 <= a < n && s[..n][a] == r[k];
      }
      InsertIsSorted(spans, r, s[n]);
    }
  }

  lemma {:induction false} SelectIncreases(spans: seq<Span>, g: Group, n: nat)
    requires n <= |spans|
    ensures Increasing(Select(spans, g, n))
  {
    if n > 0 {
      SelectIncreases(spans, g, n - 1);
      var before := Select(spans, g, n - 1);
      assert forall k :: 0 <= k < |before| ==> before[k] < n - 1;
      assert Increasing(before + [n - 1]);
    }
  }

  /** Siblings are exactly the spans of their group, sorted by start with ties in input order. */
  lemma SiblingsFacts(spans: seq<Span>, g: Group)
    ensures Sorted(spans, Siblings(spans, g))
    ensures forall i :: i in Siblings(spans, g) <==> 0 <= i < |spans| && GroupOf(spans, i) == g
  {
    var s := Select(spans, g, |spans|);
    SelectIncreases(spans, g, |spans|);
    SortIsStable(spans, s);
    SelectFacts(spans, g, |spans|);
    forall i: nat ensures i in Siblings(spans, g) <==> i < |spans| && GroupOf(spans, i) == g {
      SortMembers(spans, s, i);
    }
  }

  // ---------------------------------------------------------------------------
  // Ancestor chains
  // ---------------------------------------------------------------------------

  /** The group that continues a chain: the roots, or the children of its last span. */
  function NextGroup(spans: seq<Span>, path: seq<nat>): Group
    requires path == [] || path[|path| - 1] < |spans|
  {
    if path == [] then Roots else ChildrenOf(spans[path[|path| - 1]].id)
  }

  /** An ancestor chain from a root down. */
  ghost predicate Chain(spans: seq<Span>, path: seq<nat>) {
    path != [] ==>
      && Chain(spans, path[..|path| - 1])
      && path[|path| - 1] < |spans|
      && (|path| > 1 ==> path[|path| - 2] < |spans|)
      && GroupOf(spans, path[|path| - 1]) == NextGroup(spans, path[..|path| - 1])
  }

  /** With distinct ids a span has at most one ancestor chain. */
  lemma {:induction false} ChainIsUnique(spans: seq<Span>, p: seq<nat>, q: seq<nat>)
    requires DistinctIds(spans) && Chain(spans, p) && Chain(spans, q)
    requires p != [] && q != [] && p[|p| - 1] == q[|q| - 1]
    ensures p == q
  {
    var m, n := |p| - 1, |q| - 1;
    if m > 0 {
      assert NextGroup(spans, p[..m]).ChildrenOf?;
    }
    if n > 0 {
      assert NextGroup(spans, q[..n]).ChildrenOf?;
    }
    if m > 0 && n > 0 {
      ChainIsUnique(spans, p[..m], q[..n]);
      assert p == p[..m] + [p[m]] && q == q[..n] + [q[n]];
    }
  }

  lemma {:induction false} ChainPrefix(spans: seq<Span>, path: seq<nat>, k: nat)
    requires Chain(spans, path) && k <= |path|
    ensures Chain(spans, path[..k])
  {
    if k < |path| {
      ChainPrefix(spans, path[..|path| - 1], k);
      assert path[..|path| - 1][..k] == path[..k];
    } else {
      assert path[..k] == path;
    }
  }

  /** No span occurs twice on a chain, so a chain is no longer than the trace. */
  lemma ChainHasNoRepeats(spans: seq<Span>, path: seq<nat>, a: nat, b: nat)
    requires DistinctIds(spans) && Chain(spans, path) && a < b < |path|
    ensures path[a] != path[b]
  {
    if path[a] == path[b] {
      ChainPrefix(spans, path, a + 1);
      ChainPrefix(spans, path, b + 1);
      ChainIsUnique(spans, path[..a + 1], path[..b + 1]);
    }
  }

  lemma {:induction false} Pigeonhole(s: seq<nat>, n: nat)
    requires forall k :: 0 <= k < |s| ==> s[k] < n
    requires NoRepeats(s)
    ensures |s| <= n
  {
    if s != [] {
      assert s[0] < n;
      if m :| 0 <= m < |s| && s[m] == n - 1 {
        Pigeonhole(s[..m] + s[m + 1..], n - 1);
      } else {
        Pigeonhole(s, n - 1);
      }
    }
  }

  // ---------------------------------------------------------------------------
  // How deep the recursion can go
  // ---------------------------------------------------------------------------

  /** Two spans of the chain carry the same id. */
  ghost predicate RepeatsId(spans: seq<Span>, q: seq<nat>, a: nat, b: nat) {
    a < b < |q| && q[a] < |spans| && q[b] < |spans| && spans[q[a]].id == spans[q[b]].id
  }

  ghost predicate NoChainRepeats(spans: seq<Span>) {
    forall q, a: nat, b: nat :: Chain(spans, q) ==> !RepeatsId(spans, q, a, b)
  }

  ghost predicate DepthBound(spans: seq<Span>, n: nat) {
    forall q :: Chain(spans, q) ==> |q| <= n
  }

  /**
   The nested calls follow the chains. They are bounded exactly when no chain repeats a span id, and
   then by the number of spans.
   */
  lemma DepthIsBoundedExactly(spans: seq<Span>, n: nat)
    ensures NoChainRepeats(spans) ==> DepthBound(spans, |spans|)
    ensures !NoChainRepeats(spans) ==> !DepthBound(spans, n)
    ensures DistinctIds(spans) ==> NoChainRepeats(spans)
  {
    hide Chain;
    if NoChainRepeats(spans) {
      forall q | Chain(spans, q) ensures |q| <= |spans| {
        ChainInRange(spans, q);
        forall a: nat, b: nat | a < b < |q| ensures q[a] != q[b] {
          assert !RepeatsId(spans, q, a, b);
        }
        Pigeonhole(q, |spans|);
      }
    } else {
      var q, a: nat, b: nat :| Chain(spans, q) && RepeatsId(spans, q, a, b);
      ChainPrefix(spans, q, b + 1);
      var longer := Pump(spans, q, a, b, n);
    }
    if DistinctIds(spans) {
      forall q, a: nat, b: nat | Chain(spans, q) && a < b < |q| ensures !RepeatsId(spans, q, a, b) {
        ChainHasNoRepeats(spans, q, a, b);
      }
    }
  }

  lemma ChainIsShort(spans: seq<Span>, path: seq<nat>)
    requires NoChainRepeats(spans) && Chain(spans, path)
    ensures |path| <= |spans|
  {
    DepthIsBoundedExactly(spans, 0);
  }

  lemma ChainInRange(spans: seq<Span>, path: seq<nat>)
    requires Chain(spans, path)
    ensures Indices(spans, path)
  {
    forall k | 0 <= k < |path| ensures path[k] < |spans| {
      ChainPrefix(spans, path, k + 1);
    }
  }

  /** The part between the two equal ids can be walked again and again. */
  lemma {:induction false} Pump(spans: seq<Span>, q: seq<nat>, a: nat, b: nat, n: nat) returns (longer: seq<nat>)
    requires Chain(spans, q) && RepeatsId(spans, q, a, b)
    ensures Chain(spans, longer) && |longer| > n && longer != [] && longer[|longer| - 1] == q[b]
  {
    if n <= b {
      longer := q[..b + 1];
      ChainPrefix(spans, q, b + 1);
    } else {
      var shorter := Pump(spans, q, a, b, n - 1);
      Reroute(spans, shorter, q, a, b);
      longer := shorter + q[a + 1..b + 1];
    }
  }

  lemma ChainStep(spans: seq<Span>, q: seq<nat>, b: nat)
    requires Chain(spans, q) && 0 < b < |q|
    ensures q[b] < |spans| && q[b - 1] < |spans| && GroupOf(spans, q[b]) == ChildrenOf(spans[q[b - 1]].id)
  {
    ChainPrefix(spans, q, b + 1);
    assert q[..b + 1][..b] == q[..b];
  }

  /** A chain goes on below another span with the same id. */
  lemma {:induction false} Reroute(spans: seq<Span>, p: seq<nat>, q: seq<nat>, a: nat, b: nat)
    requires Chain(spans, p) && Chain(spans, q) && p != [] && a <= b < |q|
    requires p[|p| - 1] < |spans| && q[a] < |spans| && spans[p[|p| - 1]].id == spans[q[a]].id
    ensures Chain(spans, p + q[a + 1..b + 1])
  {
    hide GroupOf, Chain;
    if a == b {
      assert p + q[a + 1..b + 1] == p;
    } else {
      Reroute(spans, p, q, a, b - 1);
      var r := p + q[a + 1..b];
      ChainStep(spans, q, b);
      assert r[|r| - 1] == if b == a + 1 then p[|p| - 1] else q[b - 1];
      ExtendChain(spans, r, q[b]);
      assert r + [q[b]] == p + q[a + 1..b + 1];
    }
  }

  /** Two spans with the same id, one the other's child: the walk would never return. */
  lemma DuplicateIdNeverReturns(n: nat)
    ensures
      var spans := [Span("a", "", 0, 1), Span("a", "a", 0, 1)];
      !NoChainRepeats(spans) && !DepthBound(spans, n)
  {
    var spans := [Span("a", "", 0, 1), Span("a", "a", 0, 1)];
    assert HasId(spans, "a") by { assert spans[0].id == "a"; }
    ExtendChain(spans, [], 0);
    ExtendChain(spans, [0], 1);
    assert [0] + [1] == [0, 1] && [] + [0] == [0];
    assert RepeatsId(spans, [0, 1], 0, 1);
    DepthIsBoundedExactly(spans, n);
  }

  // ---------------------------------------------------------------------------
  // The walk
  // ---------------------------------------------------------------------------

  datatype Visit = Visit(i: nat, depth: nat)

  /** Spans that may follow `path` on a chain. */
  ghost predicate Continue(spans: seq<Span>, path: seq<nat>, kids: seq<nat>)
    requires Chain(spans, path)
  {
    forall k :: 0 <= k < |kids| ==> kids[k] < |spans| && GroupOf(spans, kids[k]) == NextGroup(spans, path)
  }

  lemma ExtendChain(spans: seq<Span>, path: seq<nat>, i: nat)
    requires Chain(spans, path) && i < |spans| && GroupOf(spans, i) == NextGroup(spans, path)
    ensures Chain(spans, path + [i])
  {
    assert (path + [i])[..|path|] == path;
  }

  lemma SiblingsContinue(spans: seq<Span>, path: seq<nat>)
    requires Chain(spans, path)
    ensures Continue(spans, path, Siblings(spans, NextGroup(spans, path)))
  {
    var kids := Siblings(spans, NextGroup(spans, path));
    SiblingsFacts(spans, NextGroup(spans, path));
    assert forall k :: 0 <= k < |kids| ==> kids[k] in kids;
  }

  /**
   The subtrees of `kids`, all of which continue the chain `path`: each span, then the subtrees of
   its children. The recursion ends because a chain cannot outgrow the trace.
   */
  ghost function WalkAll(spans: seq<Span>, path: seq<nat>, kids: seq<nat>): seq<Visit>
    requires NoChainRepeats(spans) && Chain(spans, path) && Continue(spans, path, kids)
    decreases |spans| - |path|, |kids|
  {
    if kids == [] then []
    else
      assert Continue(spans, path, kids[1..]);
      Walk(spans, path, kids[0]) + WalkAll(spans, path, kids[1..])
  }

  ghost function Walk(spans: seq<Span>, path: seq<nat>, i: nat): seq<Visit>
    requires NoChainRepeats(spans) && Chain(spans, path)
    requires i < |spans| && GroupOf(spans, i) == NextGroup(spans, path)
    decreases |spans| - |path|, 0
  {
    ExtendChain(spans, path, i);
    ChainIsShort(spans, path + [i]);
    SiblingsContinue(spans, path + [i]);
    [Visit(i, |path|)] + WalkAll(spans, path + [i], Siblings(spans, NextGroup(spans, path + [i])))
  }

  ghost function Flatten(spans: seq<Span>): seq<Visit>
    requires NoChainRepeats(spans)
  {
    SiblingsContinue(spans, []);
    WalkAll(spans, [], Siblings(spans, Roots))
  }

  // ---------------------------------------------------------------------------
  // What the walk emits
  // ---------------------------------------------------------------------------

  /** A walk is its first span, the walk of that span's children, and the walk of the other spans. */
  lemma Unfold(spans: seq<Span>, path: seq<nat>, kids: seq<nat>) returns (below: seq<nat>, inner: seq<Visit>, rest: seq<Visit>)
    requires NoChainRepeats(spans) && Chain(spans, path) && Continue(spans, path, kids) && kids != []
    ensures Chain(spans, path + [kids[0]]) && |path| < |spans|
    ensures below == Siblings(spans, NextGroup(spans, path + [kids[0]])) && Sorted(spans, below)
    ensures Continue(spans, path + [kids[0]], below) && Continue(spans, path, kids[1..])
    ensures inner == WalkAll(spans, path + [kids[0]], below) && rest == WalkAll(spans, path, kids[1..])
    ensures WalkAll(spans, path, kids) == [Visit(kids[0], |path|)] + inner + rest
  {
    ExtendChain(spans, path, kids[0]);
    ChainIsShort(spans, path + [kids[0]]);
    SiblingsContinue(spans, path + [kids[0]]);
    below := Siblings(spans, NextGroup(spans, path + [kids[0]]));
    SiblingsFacts(spans, NextGroup(spans, path + [kids[0]]));
    inner := WalkAll(spans, path + [kids[0]], below);
    rest := WalkAll(spans, path, kids[1..]);
  }

  /** `q` is a chain that continues `path` with the `k`-th of `kids` and ends at the visited span. */
  ghost predicate LeadsTo(spans: seq<Span>, path: seq<nat>, kids: seq<nat>, k: nat, q: seq<nat>, v: Visit) {
    && Chain(spans, q) && Extends(path, q) && k < |kids| && q[|path|] == kids[k]
    && q[|q| - 1] == v.i && |q| == v.depth + 1
  }

  ghost predicate Extends(path: seq<nat>, q: seq<nat>) {
    |path| < |q| && q[..|path|] == path
  }

  lemma ExtendsShorter(path: seq<nat>, i: nat, q: seq<nat>)
    ensures Extends(path + [i], q) ==> Extends(path, q) && q[|path|] == i
    ensures Extends(path, q) && q[|path|] == i && |q| > |path| + 1 ==> Extends(path + [i], q)
  {
    var longer := path + [i];
    if Extends(longer, q) {
      assert q[..|longer|][..|path|] == q[..|path|];
      assert q[..|longer|][|path|] == q[|path|];
    }
    if Extends(path, q) && q[|path|] == i && |q| > |path| + 1 {
      assert q[..|path| + 1] == q[..|path|] + [q[|path|]];
    }
  }

  /** Every visited span has such a chain, as long as its depth says. */
  lemma {:induction false} ChainOf(spans: seq<Span>, path: seq<nat>, kids: seq<nat>, x: nat) returns (q: seq<nat>, k: nat)
    requires NoChainRepeats(spans) && Chain(spans, path) && Continue(spans, path, kids)
    requires x < |WalkAll(spans, path, kids)|
    ensures LeadsTo(spans, path, kids, k, q, WalkAll(spans, path, kids)[x])
    decreases |spans| - |path|, |kids|
  {
    hide Chain, Siblings, NextGroup, GroupOf, Sorted, Extends, NoChainRepeats;
    if kids == [] {
      assert false;
    }
    var below, inner, rest := Unfold(spans, path, kids);
    var longer := path + [kids[0]];
    var v := WalkAll(spans, path, kids);
    if x == 0 {
      q, k := longer, 0;
      LongerExtends(path, kids[0]);
    } else if x <= |inner| {
      var j;
      q, j := ChainOf(spans, longer, below, x - 1);
      k := 0;
      assert v[x] == inner[x - 1];
      ExtendsShorter(path, kids[0], q);
    } else {
      var j;
      q, j := ChainOf(spans, path, kids[1..], x - 1 - |inner|);
      k := j + 1;
      assert v[x] == rest[x - 1 - |inner|];
    }
  }

  lemma LongerExtends(path: seq<nat>, i: nat)
    ensures Extends(path, path + [i])
  {
  }

  /** Every chain that continues `path` with one of `kids` ends at a visited span. */
  lemma {:induction false} VisitOf(spans: seq<Span>, path: seq<nat>, kids: seq<nat>, k: nat, q: seq<nat>) returns (x: nat)
    requires NoChainRepeats(spans) && Chain(spans, path) && Continue(spans, path, kids)
    requires Chain(spans, q) && Extends(path, q) && k < |kids| && q[|path|] == kids[k]
    ensures x < |WalkAll(spans, path, kids)| && WalkAll(spans, path, kids)[x] == Visit(q[|q| - 1], |q| - 1)
    decreases |spans| - |path|, |kids|
  {
    hide Chain, Siblings, NextGroup, GroupOf, Sorted, WalkAll, NoChainRepeats;
    var below, inner, rest := Unfold(spans, path, kids);
    var longer := path + [kids[0]];
    var v := WalkAll(spans, path, kids);
    if k > 0 {
      var y := VisitOf(spans, path, kids[1..], k - 1, q);
      x := 1 + |inner| + y;
      assert v[x] == rest[y];
    } else if |q| == |longer| {
      x := 0;
    } else {
      ExtendsShorter(path, kids[0], q);
      var j := NextOnChain(spans, longer, q);
      var y := VisitOf(spans, longer, below, j, q);
      x := 1 + y;
      assert v[x] == inner[y];
    }
  }

  /** A chain goes on through the children of its last span. */
  lemma NextOnChain(spans: seq<Span>, path: seq<nat>, q: seq<nat>) returns (j: nat)
    requires Chain(spans, path) && Chain(spans, q) && Extends(path, q)
    ensures j < |Siblings(spans, NextGroup(spans, path))| && Siblings(spans, NextGroup(spans, path))[j] == q[|path|]
  {
    hide Siblings, Sorted, IsRoot, NoChainRepeats;
    var n := |path|;
    ChainPrefix(spans, q, n + 1);
    assert q[..n + 1][..n] == path;
    SiblingsFacts(spans, NextGroup(spans, path));
    var s := Siblings(spans, NextGroup(spans, path));
    assert q[n] in s;
    j :| 0 <= j < |s| && s[j] == q[n];
  }

  // ---------------------------------------------------------------------------
  // How often a span is visited
  // ---------------------------------------------------------------------------

  /** A chain that continues `path` with one of `kids`. */
  ghost predicate Below(spans: seq<Span>, path: seq<nat>, kids: seq<nat>, q: seq<nat>) {
    Chain(spans, q) && Extends(path, q) && q[|path|] in kids
  }

  /** The visit is that of the chain's last span, as deep as the chain is long. */
  predicate VisitsChain(v: Visit, q: seq<nat>) {
    q != [] && v == Visit(q[|q| - 1], |q| - 1)
  }

  /** One visit for each of the chains, which are all that continue `path` with one of `kids`. */
  ghost predicate Matches(spans: seq<Span>, path: seq<nat>, kids: seq<nat>, v: seq<Visit>, chains: seq<seq<nat>>) {
    && |chains| == |v| && NoRepeats(chains)
    && (forall x :: 0 <= x < |v| ==> VisitsChain(v[x], chains[x]))
    && (forall q :: q in chains <==> Below(spans, path, kids, q))
  }

  /** A chain below the first kid ends there or goes on through its children; one below another kid is none of these. */
  lemma BelowInParts(spans: seq<Span>, path: seq<nat>, kids: seq<nat>, q: seq<nat>)
    requires Chain(spans, path) && Continue(spans, path, kids) && kids != [] && NoRepeats(kids)
    ensures
      var longer := path + [kids[0]];
      var below := Siblings(spans, NextGroup(spans, longer));
      && (Below(spans, path, kids, q) <==> q == longer || Below(spans, longer, below, q) || Below(spans, path, kids[1..], q))
      && !(Below(spans, longer, below, q) && Below(spans, path, kids[1..], q))
      && !Below(spans, longer, below, longer) && !Below(spans, path, kids[1..], longer)
  {
    hide Siblings, Sorted, IsRoot, Chain;
    var longer := path + [kids[0]];
    ExtendChain(spans, path, kids[0]);
    ExtendsShorter(path, kids[0], q);
    LongerExtends(path, kids[0]);
    assert kids == [kids[0]] + kids[1..];
    assert kids[0] !in kids[1..];
    if Chain(spans, q) && Extends(path, q) && q[|path|] == kids[0] {
      if |q| > |longer| {
        var j := NextOnChain(spans, longer, q);
      } else {
        assert q == path + [q[|path|]];
      }
    }
  }

  lemma ThreeParts<T>(a: T, s: seq<T>, t: seq<T>)
    requires NoRepeats(s) && NoRepeats(t) && a !in s && a !in t && forall x :: x in s ==> x !in t
    ensures NoRepeats([a] + s + t)
    ensures forall x :: x in [a] + s + t <==> x == a || x in s || x in t
  {
    var r := [a] + s + t;
    forall i, j | 0 <= i < j < |r| ensures r[i] != r[j] {
      assert 0 < j <= |s| ==> r[j] == s[j - 1] && r[j] in s;
      assert |s| < j ==> r[j] == t[j - 1 - |s|] && r[j] in t;
      assert 0 < i <= |s| ==> r[i] == s[i - 1] && r[i] in s;
      assert |s| < i ==> r[i] == t[i - 1 - |s|] && r[i] in t;
    }
  }

  lemma {:induction false} ChainsOf(spans: seq<Span>, path: seq<nat>, kids: seq<nat>) returns (chains: seq<seq<nat>>)
    requires NoChainRepeats(spans) && Chain(spans, path) && Continue(spans, path, kids) && NoRepeats(kids)
    ensures Matches(spans, path, kids, WalkAll(spans, path, kids), chains)
    decreases |spans| - |path|, |kids|
  {
    hide Chain, Siblings, NextGroup, GroupOf, Sorted, Matches, NoChainRepeats, NoRepeats;
    if kids == [] {
      chains := [];
      NothingMatches(spans, path);
    } else {
      var below, inner, rest := Unfold(spans, path, kids);
      var longer := path + [kids[0]];
      SiblingsHaveNoRepeats(spans, NextGroup(spans, longer));
      assert NoRepeats(kids[1..]) by { TailHasNoRepeats(kids); }
      var innerChains := ChainsOf(spans, longer, below);
      var restChains := ChainsOf(spans, path, kids[1..]);
      chains := [longer] + innerChains + restChains;
      MatchesInParts(spans, path, kids, below, inner, rest, innerChains, restChains);
    }
  }

  lemma MatchesInParts(spans: seq<Span>, path: seq<nat>, kids: seq<nat>, below: seq<nat>, inner: seq<Visit>, rest: seq<Visit>,
                       innerChains: seq<seq<nat>>, restChains: seq<seq<nat>>)
    requires Chain(spans, path) && Continue(spans, path, kids) && kids != [] && NoRepeats(kids)
    requires below == Siblings(spans, NextGroup(spans, path + [kids[0]]))
    requires Matches(spans, path + [kids[0]], below, inner, innerChains) && Matches(spans, path, kids[1..], rest, restChains)
    ensures Matches(spans, path, kids, [Visit(kids[0], |path|)] + inner + rest, [path + [kids[0]]] + innerChains + restChains)
  {
    hide Chain, Siblings, NextGroup, GroupOf, Below, VisitsChain, NoRepeats;
    var longer := path + [kids[0]];
    forall q
      ensures Below(spans, path, kids, q) <==> q == longer || Below(spans, longer, below, q) || Below(spans, path, kids[1..], q)
      ensures !(Below(spans, longer, below, q) && Below(spans, path, kids[1..], q))
      ensures !Below(spans, longer, below, longer) && !Below(spans, path, kids[1..], longer)
    {
      BelowInParts(spans, path, kids, q);
    }
    ThreeParts(longer, innerChains, restChains);
    var v, chains := [Visit(kids[0], |path|)] + inner + rest, [longer] + innerChains + restChains;
    forall x | 0 <= x < |v| ensures VisitsChain(v[x], chains[x]) {
      if x == 0 {
        VisitOfLonger(path, kids[0]);
      } else if x <= |inner| {
        assert v[x] == inner[x - 1] && chains[x] == innerChains[x - 1];
      } else {
        assert v[x] == rest[x - 1 - |inner|] && chains[x] == restChains[x - 1 - |inner|];
      }
    }
  }

  lemma NothingMatches(spans: seq<Span>, path: seq<nat>)
    ensures Matches(spans, path, [], [], [])
  {
  }

  lemma TailHasNoRepeats(kids: seq<nat>)
    requires kids != [] && NoRepeats(kids)
    ensures NoRepeats(kids[1..])
  {
  }

  lemma VisitOfLonger(path: seq<nat>, i: nat)
    ensures VisitsChain(Visit(i, |path|), path + [i])
  {
  }

  lemma SiblingsHaveNoRepeats(spans: seq<Span>, g: Group)
    ensures NoRepeats(Siblings(spans, g))
  {
    SiblingsFacts(spans, g);
    hide Siblings;
    var s := Siblings(spans, g);
    assert forall a, b :: 0 <= a < b < |s| ==> Before(spans, s[a], s[b]);
  }

  /** Two places whose spans differ, and come in start order if they are siblings. */
  ghost predicate InOrder(spans: seq<Span>, v: Visit, w: Visit) {
    && v.i < |spans| && w.i < |spans| && v.i != w.i
    && (GroupOf(spans, v.i) == GroupOf(spans, w.i) ==> Before(spans, v.i, w.i))
  }

  /** Different places of a walk visit different spans, and siblings are visited in their order. */
  lemma {:induction false} VisitsAreOrdered(spans: seq<Span>, path: seq<nat>, kids: seq<nat>, x: nat, y: nat)
    requires NoChainRepeats(spans) && DistinctIds(spans) && Chain(spans, path) && Continue(spans, path, kids) && Sorted(spans, kids)
    requires x < y < |WalkAll(spans, path, kids)|
    ensures InOrder(spans, WalkAll(spans, path, kids)[x], WalkAll(spans, path, kids)[y])
    decreases |spans| - |path|, |kids|
  {
    hide Chain, Siblings, NextGroup, GroupOf, Sorted, Extends, InOrder, LeadsTo, NoChainRepeats;
    if kids == [] {
      assert false;
    }
    var below, inner, rest := Unfold(spans, path, kids);
    var longer := path + [kids[0]];
    var v := WalkAll(spans, path, kids);
    SortedTail(spans, kids);
    if 1 <= x && y <= |inner| {
      VisitsAreOrdered(spans, longer, below, x - 1, y - 1);
      assert v[x] == inner[x - 1] && v[y] == inner[y - 1];
    } else if x > |inner| {
      VisitsAreOrdered(spans, path, kids[1..], x - 1 - |inner|, y - 1 - |inner|);
      assert v[x] == rest[x - 1 - |inner|] && v[y] == rest[y - 1 - |inner|];
    } else if y <= |inner| {
      BelowIsLater(spans, longer, below, y - 1);
      assert v[y] == inner[y - 1];
    } else {
      assert v[y] == rest[y - 1 - |inner|];
      var p := FirstChain(spans, path, kids, x);
      var q, k := ChainOf(spans, path, kids[1..], y - 1 - |inner|);
      SeparateSubtrees(spans, path, kids, k, p, q, v[x], v[y]);
    }
  }

  lemma SortedTail(spans: seq<Span>, kids: seq<nat>)
    requires Sorted(spans, kids) && kids != []
    ensures Sorted(spans, kids[1..])
  {
  }

  /** What the first subtree visits lies below the first kid. */
  lemma FirstChain(spans: seq<Span>, path: seq<nat>, kids: seq<nat>, x: nat) returns (p: seq<nat>)
    requires NoChainRepeats(spans) && Chain(spans, path) && Continue(spans, path, kids) && kids != []
    requires x < |Walk(spans, path, kids[0])|
    ensures LeadsTo(spans, path, kids, 0, p, Walk(spans, path, kids[0])[x])
  {
    hide Chain, Siblings, NextGroup, GroupOf, Sorted, NoChainRepeats;
    assert Continue(spans, path, kids[..1]);
    assert kids[..1][1..] == [];
    var k;
    p, k := ChainOf(spans, path, kids[..1], x);
  }

  /** A span is not visited again below itself, and nothing below it is its sibling. */
  lemma BelowIsLater(spans: seq<Span>, longer: seq<nat>, below: seq<nat>, y: nat)
    requires NoChainRepeats(spans) && DistinctIds(spans) && Chain(spans, longer) && longer != [] && Continue(spans, longer, below)
    requires y < |WalkAll(spans, longer, below)|
    ensures InOrder(spans, Visit(longer[|longer| - 1], |longer| - 1), WalkAll(spans, longer, below)[y])
  {
    hide WalkAll, Siblings, IsRoot, NoChainRepeats;
    var q, k := ChainOf(spans, longer, below, y);
    var v, i := WalkAll(spans, longer, below)[y], longer[|longer| - 1];
    if v.i == i {
      ChainIsUnique(spans, q, longer);
    }
    if GroupOf(spans, v.i) == GroupOf(spans, i) {
      SameGroupSameParents(spans, q, longer);
    }
  }

  /** Two chains whose ends are siblings agree but for their ends. */
  lemma SameGroupSameParents(spans: seq<Span>, p: seq<nat>, q: seq<nat>)
    requires DistinctIds(spans) && Chain(spans, p) && Chain(spans, q) && p != [] && q != []
    requires GroupOf(spans, p[|p| - 1]) == GroupOf(spans, q[|q| - 1])
    ensures p[..|p| - 1] == q[..|q| - 1]
  {
    var m, n := |p| - 1, |q| - 1;
    if m > 0 && n > 0 {
      ChainIsUnique(spans, p[..m], q[..n]);
    }
  }

  /** Spans under different kids are different, and siblings only if they are the kids themselves. */
  lemma SeparateSubtrees(spans: seq<Span>, path: seq<nat>, kids: seq<nat>, k: nat, p: seq<nat>, q: seq<nat>, v: Visit, w: Visit)
    requires DistinctIds(spans) && Chain(spans, path) && Sorted(spans, kids) && kids != []
    requires LeadsTo(spans, path, kids, 0, p, v) && LeadsTo(spans, path, kids[1..], k, q, w)
    ensures InOrder(spans, v, w)
  {
    hide Siblings, IsRoot, GroupOf, NoChainRepeats;
    var n := |path|;
    assert q[n] == kids[k + 1];
    assert Before(spans, kids[0], kids[k + 1]);
    if v.i == w.i {
      ChainIsUnique(spans, p, q);
    }
    if GroupOf(spans, v.i) == GroupOf(spans, w.i) {
      SameGroupSameParents(spans, p, q);
    }
  }

  /** `y` is the parent of `x`, one level up, and everything between them is below `y`. */
  ghost predicate ParentVisit(spans: seq<Span>, v: seq<Visit>, y: nat, x: nat) {
    && y < x < |v|
    && v[x].i < |spans| && v[y].i < |spans|
    && GroupOf(spans, v[x].i) == ChildrenOf(spans[v[y].i].id)
    && v[x].depth == v[y].depth + 1
    && forall z :: y < z < x ==> v[z].depth > v[y].depth
  }

  lemma {:induction false} Preorder(spans: seq<Span>, path: seq<nat>, kids: seq<nat>, x: nat) returns (y: nat)
    requires NoChainRepeats(spans) && Chain(spans, path) && Continue(spans, path, kids)
    requires x < |WalkAll(spans, path, kids)| && WalkAll(spans, path, kids)[x].depth > |path|
    ensures ParentVisit(spans, WalkAll(spans, path, kids), y, x)
    decreases |spans| - |path|, |kids|
  {
    hide Chain, Siblings, NextGroup, GroupOf, Sorted, Extends, ParentVisit, LeadsTo, NoChainRepeats;
    if kids == [] {
      assert false;
    }
    var below, inner, rest := Unfold(spans, path, kids);
    var longer := path + [kids[0]];
    var v := WalkAll(spans, path, kids);
    if x > |inner| {
      assert v[x] == rest[x - 1 - |inner|];
      var z := Preorder(spans, path, kids[1..], x - 1 - |inner|);
      y := z + 1 + |inner|;
      ShiftParent(spans, [Visit(kids[0], |path|)] + inner, rest, [], z, x - 1 - |inner|);
      assert v == [Visit(kids[0], |path|)] + inner + rest + [];
    } else {
      assert v[x] == inner[x - 1];
      if inner[x - 1].depth > |longer| {
        var z := Preorder(spans, longer, below, x - 1);
        y := z + 1;
        ShiftParent(spans, [Visit(kids[0], |path|)], inner, rest, z, x - 1);
      } else {
        y := 0;
        ChildOfHead(spans, longer, below, x - 1);
        ShiftParent(spans, [], [Visit(kids[0], |path|)] + inner, rest, 0, x);
        assert v == [] + ([Visit(kids[0], |path|)] + inner) + rest;
      }
    }
  }

  lemma ShiftParent(spans: seq<Span>, a: seq<Visit>, v: seq<Visit>, b: seq<Visit>, y: nat, x: nat)
    requires ParentVisit(spans, v, y, x)
    ensures ParentVisit(spans, a + v + b, y + |a|, x + |a|)
  {
    hide GroupOf, NoChainRepeats;
    var w := a + v + b;
    assert forall z :: |a| <= z < |a| + |v| ==> w[z] == v[z - |a|];
  }

  /** The spans one level below the head of a subtree are its children. */
  lemma ChildOfHead(spans: seq<Span>, longer: seq<nat>, below: seq<nat>, x: nat)
    requires NoChainRepeats(spans) && Chain(spans, longer) && longer != [] && Continue(spans, longer, below)
    requires x < |WalkAll(spans, longer, below)| && WalkAll(spans, longer, below)[x].depth <= |longer|
    ensures ParentVisit(spans, [Visit(longer[|longer| - 1], |longer| - 1)] + WalkAll(spans, longer, below), 0, x + 1)
  {
    hide WalkAll, Siblings, IsRoot, NoChainRepeats;
    var inner := WalkAll(spans, longer, below);
    forall k | 0 <= k <= x ensures inner[k].depth >= |longer| {
      var q, j := ChainOf(spans, longer, below, k);
    }
    var q, j := ChainOf(spans, longer, below, x);
    assert q[|longer|] == q[|q| - 1];
  }

  /** A span whose ancestors end at a root. */
  ghost predicate Rooted(spans: seq<Span>, i: nat) {
    exists q :: q != [] && Chain(spans, q) && q[|q| - 1] == i
  }

  /**
   Flattening emits exactly the spans whose ancestor chain ends at a root. With distinct ids it emits
   each of them once, with the length of its chain as depth.
   */
  lemma FlattenIsExact(spans: seq<Span>, i: nat)
    requires NoChainRepeats(spans)
    ensures (exists x :: 0 <= x < |Flatten(spans)| && Flatten(spans)[x].i == i) <==> Rooted(spans, i)
    ensures DistinctIds(spans) ==>
      forall x, y :: 0 <= x < y < |Flatten(spans)| ==> Flatten(spans)[x].i != Flatten(spans)[y].i
    ensures DistinctIds(spans) ==>
      forall x, q :: 0 <= x < |Flatten(spans)| && q != [] && Chain(spans, q) && q[|q| - 1] == Flatten(spans)[x].i
        ==> Flatten(spans)[x].depth == |q| - 1
  {
    hide WalkAll, Siblings, GroupOf, Sorted, DistinctIds, NoChainRepeats;
    SiblingsContinue(spans, []);
    SiblingsFacts(spans, Roots);
    var kids := Siblings(spans, Roots);
    var v := Flatten(spans);
    if x :| 0 <= x < |v| && v[x].i == i {
      var q, k := ChainOf(spans, [], kids, x);
    }
    if q :| q != [] && Chain(spans, q) && q[|q| - 1] == i {
      var k := NextOnChain(spans, [], q);
      var x := VisitOf(spans, [], kids, k, q);
    }
    if DistinctIds(spans) {
      forall x, y | 0 <= x < y < |v| ensures v[x].i != v[y].i {
        VisitsAreOrdered(spans, [], kids, x, y);
      }
      forall x, q | 0 <= x < |v| && q != [] && Chain(spans, q) && q[|q| - 1] == v[x].i
        ensures v[x].depth == |q| - 1
      {
        var p, k := ChainOf(spans, [], kids, x);
        ChainIsUnique(spans, p, q);
      }
    }
  }

  /**
   Whenever the recursion is bounded, repeated ids or not, flattening visits a span once for each of
   its ancestor chains: visits and non-empty chains are in bijection.
   */
  lemma VisitsAreChains(spans: seq<Span>) returns (chains: seq<seq<nat>>)
    requires NoChainRepeats(spans)
    ensures |chains| == |Flatten(spans)| && NoRepeats(chains)
    ensures forall x :: 0 <= x < |chains| ==> VisitsChain(Flatten(spans)[x], chains[x])
    ensures forall q :: q in chains <==> q != [] && Chain(spans, q)
  {
    hide WalkAll, Siblings, Sorted, NoChainRepeats, VisitsChain;
    SiblingsContinue(spans, []);
    SiblingsHaveNoRepeats(spans, Roots);
    var kids := Siblings(spans, Roots);
    chains := ChainsOf(spans, [], kids);
    forall q ensures Below(spans, [], kids, q) <==> q != [] && Chain(spans, q) {
      if q != [] && Chain(spans, q) {
        assert q[..0] == [];
        var k := NextOnChain(spans, [], q);
      }
    }
  }

  /**
   The order is a preorder: a span that is not at depth 0 comes after its parent, one level
   deeper, with only spans below the parent between them; a span at depth 0 is a root; and with
   distinct ids siblings come in the order of their start times, ties in input order.
   */
  lemma FlattenIsPreorder(spans: seq<Span>)
    requires NoChainRepeats(spans)
    ensures
      var v := Flatten(spans);
      && (forall x :: 0 <= x < |v| ==> v[x].i < |spans|)
      && (forall x :: 0 <= x < |v| ==> (v[x].depth == 0 <==> IsRoot(spans, v[x].i)))
      && (forall x :: 0 <= x < |v| && v[x].depth > 0 ==> exists y :: ParentVisit(spans, v, y, x))
      && (DistinctIds(spans) ==>
            forall x, y :: 0 <= x < y < |v| && GroupOf(spans, v[x].i) == GroupOf(spans, v[y].i) ==>
              Before(spans, v[x].i, v[y].i))
  {
    hide DistinctIds, NoChainRepeats;
    SiblingsContinue(spans, []);
    SiblingsFacts(spans, Roots);
    var kids := Siblings(spans, Roots);
    var v := Flatten(spans);
    forall x | 0 <= x < |v|
      ensures v[x].i < |spans| && (v[x].depth == 0 <==> IsRoot(spans, v[x].i))
    {
      var q, k := ChainOf(spans, [], kids, x);
    }
    forall x | 0 <= x < |v| && v[x].depth > 0 ensures exists y :: ParentVisit(spans, v, y, x) {
      var y := Preorder(spans, [], kids, x);
    }
    if DistinctIds(spans) {
      forall x, y | 0 <= x < y < |v| && GroupOf(spans, v[x].i) == GroupOf(spans, v[y].i)
        ensures Before(spans, v[x].i, v[y].i)
      {
        VisitsAreOrdered(spans, [], kids, x, y);
      }
    }
  }
}
