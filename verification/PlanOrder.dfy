/** The order in which plan steps are run: Kahn's algorithm, ties broken by declaration order. */
module PlanOrder {
  import opened Text
  import opened Dependencies

  // ----- What the algorithm is meant to compute -----

  /** For every step, by declaration index, the steps it waits for. */
  type Deps = seq<set<nat>>

  predicate WellIndexed(deps: Deps) {
    forall i :: 0 <= i < |deps| ==> forall d :: d in deps[i] ==> d < |deps|
  }

  predicate IsReady(deps: Deps, order: seq<nat>, i: nat) {
    i < |deps| && i !in order && forall d :: d in deps[i] ==> d in order
  }

  function FirstReady(deps: Deps, order: seq<nat>, from: nat): (next: Option<nat>)
    ensures next.Some? ==> from <= next.value && IsReady(deps, order, next.value)
    ensures forall j :: from <= j && IsReady(deps, order, j) ==> next.Some? && next.value <= j
    decreases |deps| - from
  {
    if from >= |deps| then None
    else if IsReady(deps, order, from) then Some(from)
    else FirstReady(deps, order, from + 1)
  }

  /** The order after `k` rounds of taking the ready step that was declared first. */
  function Greedy(deps: Deps, k: nat): seq<nat> {
    if k == 0 then [] else
      var order := Greedy(deps, k - 1);
      var next := FirstReady(deps, order, 0);
      if next.None? then order else order + [next.value]
  }

  /** The complete order; `None` when some steps never become ready. */
  function Resolved(deps: Deps): Option<seq<nat>> {
    var order := Greedy(deps, |deps|);
    if |order| == |deps| then Some(order) else None
  }

  // ----- Kahn's loop -----

  predicate Ascending(s: seq<nat>) {
    forall i, j :: 0 <= i < j < |s| ==> s[i] < s[j]
  }

  predicate Sorted(s: seq<nat>) {
    forall i, j :: 0 <= i < j < |s| ==> s[i] <= s[j]
  }

  function Insert(s: seq<nat>, x: nat): seq<nat> {
    if s == [] || s[|s| - 1] <= x then s + [x] else Insert(s[..|s| - 1], x) + [s[|s| - 1]]
  }

  function SortNats(s: seq<nat>): seq<nat> {
    if s == [] then [] else Insert(SortNats(s[..|s| - 1]), s[|s| - 1])
  }

  lemma {:induction false} InsertKeeps(s: seq<nat>, x: nat)
    ensures multiset(Insert(s, x)) == multiset(s) + multiset{x}
  {
    if s != [] {
      var front, last := s[..|s| - 1], s[|s| - 1];
      assert s == front + [last];
      InsertKeeps(front, x);
    }
  }

  lemma {:induction false} InsertSorts(s: seq<nat>, x: nat)
    requires Sorted(s)
    ensures Sorted(Insert(s, x))
  {
    if s != [] && s[|s| - 1] > x {
      var front, last := s[..|s| - 1], s[|s| - 1];
      InsertSorts(front, x);
      InsertKeeps(front, x);
      var r := Insert(front, x);
      forall i | 0 <= i < |r| ensures r[i] <= last {
        assert r[i] in multiset(r);
        assert r[i] == x || r[i] in front;
      }
    }
  }

  lemma {:induction false} SortNatsSorts(s: seq<nat>)
    ensures multiset(SortNats(s)) == multiset(s) && Sorted(SortNats(s))
  {
    if s != [] {
      var front, last := s[..|s| - 1], s[|s| - 1];
      assert s == front + [last];
      SortNatsSorts(front);
      InsertKeeps(SortNats(front), last);
      InsertSorts(SortNats(front), last);
    }
  }

  /** How many of the first `k` steps' edges to `c` come from steps that are not in the order. */
  function Pending(children: seq<seq<nat>>, order: seq<nat>, c: nat, k: nat): nat
    requires k <= |children|
  {
    if k == 0 then 0 else
      Pending(children, order, c, k - 1) + if k - 1 in order then 0 else multiset(children[k - 1])[c]
  }

  lemma {:induction false} PendingAfter(children: seq<seq<nat>>, order: seq<nat>, node: nat, c: nat, k: nat)
    requires k <= |children| && node < |children| && node !in order
    ensures Pending(children, order + [node], c, k)
      == Pending(children, order, c, k) - if node < k then multiset(children[node])[c] else 0
  {
    if k > 0 {
      PendingAfter(children, order, node, c, k - 1);
    }
  }

  lemma {:induction false} PendingIsZero(children: seq<seq<nat>>, order: seq<nat>, c: nat, k: nat)
    requires k <= |children|
    ensures Pending(children, order, c, k) == 0 <==> forall v :: 0 <= v < k && c in children[v] ==> v in order
  {
    if k > 0 {
      PendingIsZero(children, order, c, k - 1);
    }
  }

  /** The children lists list exactly the edges of the dependency sets. */
  ghost predicate Lists(children: seq<seq<nat>>, deps: Deps) {
    && |children| == |deps| && WellIndexed(deps)
    && (forall v :: 0 <= v < |children| ==> forall c :: c in children[v] ==> c < |deps|)
    && (forall v, c :: 0 <= v < |children| && 0 <= c < |deps| ==> (c in children[v] <==> v in deps[c]))
  }

  /** A step is ready when nothing is pending for it. */
  lemma ReadyIsNonePending(children: seq<seq<nat>>, deps: Deps, order: seq<nat>, i: nat)
    requires Lists(children, deps) && i < |deps|
    ensures IsReady(deps, order, i) <==> i !in order && Pending(children, order, i, |children|) == 0
  {
    hide Pending;
    PendingIsZero(children, order, i, |children|);
  }

  ghost predicate ReadyList(ready: seq<nat>, order: seq<nat>, indeg: seq<nat>) {
    Ascending(ready) && forall i :: i in ready <==> 0 <= i < |indeg| && i !in order && indeg[i] == 0
  }

  /** Between rounds the counters count the pending edges. */
  ghost predicate Counts(children: seq<seq<nat>>, order: seq<nat>, indeg: seq<nat>) {
    |indeg| == |children| && forall c :: 0 <= c < |indeg| ==> indeg[c] == Pending(children, order, c, |children|)
  }

  /** After `done` of the taken step's edges. */
  ghost predicate Counting(children: seq<seq<nat>>, order: seq<nat>, indeg: seq<nat>, done: seq<nat>) {
    && |indeg| == |children|
    && forall c :: 0 <= c < |indeg| ==> indeg[c] + multiset(done)[c] == Pending(children, order, c, |children|)
  }

  /** Appending a new element to an ascending list and sorting it again. */
  lemma AppendAndSort(ready: seq<nat>, x: nat)
    requires Ascending(ready) && x !in ready
    ensures Ascending(SortNats(ready + [x]))
    ensures forall i :: i in SortNats(ready + [x]) <==> i in ready || i == x
  {
    hide SortNats;
    var r := SortNats(ready + [x]);
    SortNatsSorts(ready + [x]);
    assert forall i :: i in r <==> i in multiset(r);
    assert forall i :: i in ready + [x] <==> i in multiset(ready + [x]);
    AscendingIffNoRepeat(ready);
    forall i ensures multiset(r)[i] <= 1 {
      assert multiset(ready + [x])[i] == multiset(ready)[i] + (if i == x then 1 else 0);
    }
    NoRepeatIsAscending(r);
  }

  lemma {:induction false} AscendingIffNoRepeat(s: seq<nat>)
    requires Ascending(s)
    ensures forall i :: multiset(s)[i] <= 1
    decreases |s|
  {
    if s != [] {
      var front, last := s[..|s| - 1], s[|s| - 1];
      assert s == front + [last];
      AscendingIffNoRepeat(front);
      assert last !in multiset(front);
    }
  }

  lemma NoRepeatIsAscending(s: seq<nat>)
    requires Sorted(s) && forall i :: multiset(s)[i] <= 1
    ensures Ascending(s)
  {
    forall i, j | 0 <= i < j < |s| ensures s[i] < s[j] {
      assert s == s[..j] + s[j..];
      assert s[i] in s[..j] && s[j] in s[j..];
      assert multiset(s)[s[j]] == multiset(s[..j])[s[j]] + multiset(s[j..])[s[j]];
    }
  }

  /** Steps in the order have nothing pending. */
  ghost predicate Settled(children: seq<seq<nat>>, before: seq<nat>, order: seq<nat>) {
    forall c :: c in order ==> c < |children| && Pending(children, before, c, |children|) == 0
  }

  /** The first ready step is the one the greedy order takes. */
  lemma TakeFirst(children: seq<seq<nat>>, deps: Deps, order: seq<nat>, indeg: seq<nat>, ready: seq<nat>)
    requires Lists(children, deps) && Counts(children, order, indeg) && ReadyList(ready, order, indeg) && ready != []
    ensures ready[0] < |children| && ready[0] !in order && indeg[ready[0]] == 0
    ensures FirstReady(deps, order, 0) == Some(ready[0])
    ensures ReadyList(ready[1..], order + [ready[0]], indeg)
  {
    hide Pending, Lists, IsReady;
    var node := ready[0];
    assert node in ready && |children| == |deps| by { SameSize(children, deps); }
    forall i: nat | i < |deps| ensures IsReady(deps, order, i) <==> i in ready {
      ReadyIsNonePending(children, deps, order, i);
    }
    forall i | i in ready ensures node <= i {}
    assert forall i :: i in ready <==> i == node || i in ready[1..];
    assert node !in ready[1..];
    ReadyIsInRange(deps, order);
  }

  lemma SameSize(children: seq<seq<nat>>, deps: Deps)
    ensures Lists(children, deps) ==> |children| == |deps|
  {}

  lemma ReadyIsInRange(deps: Deps, order: seq<nat>)
    ensures forall i: nat :: IsReady(deps, order, i) ==> i < |deps|
  {}

  /** An edge of the taken step that is still to be counted is counted by a positive number. */
  lemma EdgeIsPending(
      children: seq<seq<nat>>, deps: Deps, before: seq<nat>, node: nat, indeg: seq<nat>, kids: seq<nat>, k: nat)
    requires Lists(children, deps) && node < |children| && node !in before && Settled(children, before, before + [node])
    requires multiset(kids) == multiset(children[node]) && k < |kids|
    requires Counting(children, before, indeg, kids[..k])
    ensures kids[k] < |indeg| && 0 < indeg[kids[k]] && kids[k] !in before + [node]
  {
    hide Pending;
    var child := kids[k];
    assert child in multiset(kids);
    assert child in children[node];
    PendingAfter(children, before, node, child, |children|);
    assert kids == kids[..k] + kids[k..];
    assert child in kids[k..];
    assert multiset(kids)[child] == multiset(kids[..k])[child] + multiset(kids[k..])[child];
  }

  lemma Decremented(
      children: seq<seq<nat>>, before: seq<nat>, order: seq<nat>, indeg: seq<nat>, ready: seq<nat>, kids: seq<nat>,
      k: nat)
    requires k < |kids| && Counting(children, before, indeg, kids[..k]) && ReadyList(ready, order, indeg)
    requires kids[k] < |indeg| && 0 < indeg[kids[k]] && kids[k] !in order
    ensures var after := indeg[kids[k] := indeg[kids[k]] - 1];
      && Counting(children, before, after, kids[..k + 1])
      && ReadyList(if after[kids[k]] == 0 then SortNats(ready + [kids[k]]) else ready, order, after)
  {
    hide Pending, SortNats;
    var child := kids[k];
    assert kids[..k + 1] == kids[..k] + [child];
    assert child !in ready;
    AppendAndSort(ready, child);
  }

  /** When all its edges are counted, the taken step belongs to the order. */
  lemma NextRound(children: seq<seq<nat>>, before: seq<nat>, node: nat, indeg: seq<nat>, kids: seq<nat>)
    requires node < |children| && node !in before && Settled(children, before, before + [node])
    requires multiset(kids) == multiset(children[node]) && Counting(children, before, indeg, kids)
    ensures Counts(children, before + [node], indeg) && Settled(children, before + [node], before + [node])
  {
    hide Pending;
    forall c: nat ensures Pending(children, before + [node], c, |children|)
      == Pending(children, before, c, |children|) - multiset(children[node])[c]
    {
      PendingAfter(children, before, node, c, |children|);
    }
  }

  lemma FirstRound(children: seq<seq<nat>>, order: seq<nat>, indeg: seq<nat>, ready: seq<nat>)
    requires Counts(children, order, indeg) && Settled(children, order, order)
    requires ready != [] && ready[0] < |children| && indeg[ready[0]] == 0
    ensures Counting(children, order, indeg, []) && Settled(children, order, order + [ready[0]])
  {
    hide Pending;
  }

  /** When the ready list is empty the greedy order does not grow any more. */
  lemma Exhausted(children: seq<seq<nat>>, deps: Deps, order: seq<nat>, indeg: seq<nat>, k: nat)
    requires Lists(children, deps) && Counts(children, order, indeg) && ReadyList([], order, indeg)
    requires order == Greedy(deps, k) && k <= |deps|
    ensures order == Greedy(deps, |deps|)
  {
    hide Pending, Lists, IsReady;
    SameSize(children, deps);
    ReadyIsInRange(deps, order);
    forall i: nat | i < |deps| ensures !IsReady(deps, order, i) {
      ReadyIsNonePending(children, deps, order, i);
      assert i !in [];
    }
    Stalled(deps, k, |deps|);
  }

  lemma {:induction false} Stalled(deps: Deps, k: nat, m: nat)
    requires k <= m && FirstReady(deps, Greedy(deps, k), 0).None?
    ensures Greedy(deps, m) == Greedy(deps, k)
  {
    if k < m {
      Stalled(deps, k, m - 1);
    }
  }

  lemma NothingToSettle(children: seq<seq<nat>>)
    ensures Settled(children, [], [])
  {}

  /** The greedy order never repeats a step. */
  lemma {:induction false} GreedyIsDistinct(deps: Deps, k: nat)
    ensures var order := Greedy(deps, k);
      && (forall i, j :: 0 <= i < j < |order| ==> order[i] != order[j])
      && (forall i :: 0 <= i < |order| ==> order[i] < |deps|)
      && |order| <= k
  {
    hide FirstReady;
    if k > 0 {
      GreedyIsDistinct(deps, k - 1);
    }
  }

  function Indices(n: nat): (r: set<nat>)
    ensures |r| == n && forall i :: i in r <==> 0 <= i < n
  {
    if n == 0 then {} else Indices(n - 1) + {n - 1}
  }

  lemma GreedyFits(deps: Deps, k: nat)
    ensures |Greedy(deps, k)| <= |deps|
  {
    GreedyIsDistinct(deps, k);
    NoRepeatFits(Greedy(deps, k), Indices(|deps|));
  }

  /** One more round, with room for it. */
  lemma GreedyGrows(deps: Deps, k: nat)
    requires FirstReady(deps, Greedy(deps, k), 0).Some?
    ensures Greedy(deps, k + 1) == Greedy(deps, k) + [FirstReady(deps, Greedy(deps, k), 0).value]
    ensures |Greedy(deps, k)| < |deps|
  {
    GreedyFits(deps, k + 1);
  }

  method InitiallyReady(indeg: seq<nat>) returns (ready: seq<nat>)
    ensures ReadyList(ready, [], indeg)
  {
    ready := [];
    for i := 0 to |indeg|
      invariant Ascending(ready) && forall j :: j in ready <==> 0 <= j < i && indeg[j] == 0
    {
      if indeg[i] == 0 {
        assert forall j :: 0 <= j < |ready| ==> ready[j] in ready;
        ready := ready + [i];
      }
    }
  }

  /** The loop of `resolve` over the in-degrees and children lists that were built for `deps`. */
  method Kahn(children: seq<seq<nat>>, indegrees: seq<nat>, ghost deps: Deps) returns (order: seq<nat>)
    requires Lists(children, deps) && Counts(children, [], indegrees)
    ensures order == Greedy(deps, |deps|)
  {
    hide Pending, Lists, Counting, ReadyList, IsReady, FirstReady, SortNats, WellIndexed, Settled;
    SameSize(children, deps);
    var indeg := indegrees;
    var ready := InitiallyReady(indeg);
    order := [];
    NothingToSettle(children);
    while ready != []
      invariant order == Greedy(deps, |order|) && |order| <= |deps|
      invariant Counts(children, order, indeg) && ReadyList(ready, order, indeg)
      invariant Settled(children, order, order)
      decreases |deps| - |order|
    {
      ghost var before := order;
      TakeFirst(children, deps, before, indeg, ready);
      FirstRound(children, before, indeg, ready);
      GreedyGrows(deps, |before|);
      var node := ready[0];
      ready := ready[1..];
      order := order + [node];
      var kids := SortNats(children[node]);
      SortNatsSorts(children[node]);
      for k := 0 to |kids|
        invariant Counting(children, before, indeg, kids[..k]) && ReadyList(ready, order, indeg)
      {
        EdgeIsPending(children, deps, before, node, indeg, kids, k);
        Decremented(children, before, order, indeg, ready, kids, k);
        indeg := indeg[kids[k] := indeg[kids[k]] - 1];
        if indeg[kids[k]] == 0 {
          ready := SortNats(ready + [kids[k]]);
        }
      }
      assert kids[..|kids|] == kids;
      NextRound(children, before, node, indeg, kids);
    }
    Exhausted(children, deps, order, indeg, |order|);
  }

  // ----- What the greedy order is -----

  function GraphOf(deps: Deps): Graph<nat> {
    map i: nat | i < |deps| :: deps[i]
  }

  /** An order in which every step comes after everything it waits for. */
  predicate Topological(deps: Deps, order: seq<nat>) {
    && |order| == |deps|
    && (forall i, j :: 0 <= i < j < |order| ==> order[i] != order[j])
    && (forall i :: 0 <= i < |order| ==> order[i] < |deps| && deps[order[i]] <= Before(order, i))
  }

  function Before(order: seq<nat>, i: nat): set<nat>
    requires i <= |order|
  {
    set j | 0 <= j < i :: order[j]
  }

  /** Each step of the greedy order was the first one ready when it was taken. */
  lemma {:induction false} GreedyTakesFirst(deps: Deps, k: nat, i: nat)
    requires i < |Greedy(deps, k)|
    ensures var order := Greedy(deps, k);
      FirstReady(deps, order[..i], 0) == Some(order[i])
  {
    hide FirstReady;
    var order := Greedy(deps, k - 1);
    if i < |order| {
      GreedyTakesFirst(deps, k - 1, i);
      assert Greedy(deps, k)[..i] == order[..i];
    } else {
      assert Greedy(deps, k)[..i] == order;
    }
  }

  /** A complete greedy order is topological. */
  lemma ResolvedIsTopological(deps: Deps)
    requires Resolved(deps).Some?
    ensures Topological(deps, Resolved(deps).value)
  {
    hide Greedy;
    var order := Resolved(deps).value;
    GreedyIsDistinct(deps, |deps|);
    forall i | 0 <= i < |order| ensures deps[order[i]] <= Before(order, i) {
      GreedyTakesFirst(deps, |deps|, i);
      assert forall d :: d in order[..i] ==> exists j :: 0 <= j < i && order[j] == d;
    }
  }

  lemma GreedyEnds(deps: Deps)
    requires Resolved(deps).None?
    ensures FirstReady(deps, Greedy(deps, |deps|), 0).None?
  {
    GrowsOrStalls(deps, |deps|);
  }

  lemma {:induction false} GrowsOrStalls(deps: Deps, k: nat)
    ensures |Greedy(deps, k)| == k || FirstReady(deps, Greedy(deps, k), 0).None?
  {
    hide FirstReady;
    if k > 0 {
      GrowsOrStalls(deps, k - 1);
    }
  }

  lemma RankOfOrder(deps: Deps, order: seq<nat>) returns (rank: map<nat, nat>)
    requires Topological(deps, order)
    ensures Ranks(GraphOf(deps), rank)
  {
    EveryStepIsPlaced(deps, order);
    rank := map t: nat | t < |deps| :: PlaceOf(order, t);
    forall t, d | t in GraphOf(deps) && d in GraphOf(deps)[t] ensures d in rank ==> rank[d] < rank[t] {
      assert d in Before(order, PlaceOf(order, t));
      var j :| 0 <= j < PlaceOf(order, t) && order[j] == d;
      if d in rank { assert order[PlaceOf(order, d)] == d; }
    }
  }

  function PlaceOf(order: seq<nat>, t: nat): (i: nat)
    requires t in order
    ensures i < |order| && order[i] == t
  {
    if order[0] == t then 0 else 1 + PlaceOf(order[1..], t)
  }

  lemma EveryStepIsPlaced(deps: Deps, order: seq<nat>)
    requires |order| == |deps|
    requires forall i, j :: 0 <= i < j < |order| ==> order[i] != order[j]
    requires forall i :: 0 <= i < |order| ==> order[i] < |deps|
    ensures forall t :: 0 <= t < |deps| ==> t in order
  {
    forall t | 0 <= t < |deps| ensures t in order {
      if t !in order {
        NoRepeatFits(order, Indices(|deps|) - {t});
      }
    }
  }

  /** A complete order is found exactly when no step depends on itself through a cycle. */
  lemma ResolvedIffAcyclic(deps: Deps)
    requires WellIndexed(deps)
    ensures Resolved(deps).Some? <==> !Cyclic(GraphOf(deps))
  {
    hide Greedy, FirstReady, Topological;
    if Resolved(deps).Some? {
      ResolvedIsTopological(deps);
      var rank := RankOfOrder(deps, Resolved(deps).value);
      RankedIsAcyclic(GraphOf(deps), rank);
    } else {
      GreedyEnds(deps);
      var order := Greedy(deps, |deps|);
      var left := SomeLeft(deps, order);
      var t :| t in left;
      StuckNeedsCycle(GraphOf(deps), left, t);
    }
  }

  lemma SomeLeft(deps: Deps, order: seq<nat>) returns (left: set<nat>)
    requires WellIndexed(deps) && order == Greedy(deps, |deps|) && |order| != |deps|
    requires FirstReady(deps, order, 0).None?
    ensures left != {} && Stuck(GraphOf(deps), left)
  {
    hide Greedy;
    GreedyIsDistinct(deps, |deps|);
    left := set i: nat | i < |deps| && i !in order;
    if left == {} {
      CoveredByOrder(order, Indices(|deps|));
    }
    forall t | t in left ensures GraphOf(deps)[t] * left != {} {
      assert !IsReady(deps, order, t);
      var d :| d in deps[t] && d !in order;
      assert d in GraphOf(deps)[t] * left;
    }
  }

  lemma {:induction false} CoveredByOrder(order: seq<nat>, s: set<nat>)
    requires forall t :: t in s ==> t in order
    ensures |s| <= |order|
    decreases |order|
  {
    if order != [] {
      var front, last := order[..|order| - 1], order[|order| - 1];
      CoveredByOrder(front, s - {last});
    }
  }

  /** Smaller or equal in the lexicographic order of declaration indices. */
  ghost predicate LexLe(a: seq<nat>, b: seq<nat>) {
    a == b || exists k: nat :: k < |a| && k < |b| && a[..k] == b[..k] && a[k] < b[k]
  }

  /** No topological order comes before the greedy one. */
  lemma ResolvedIsLeast(deps: Deps, other: seq<nat>)
    requires Resolved(deps).Some? && Topological(deps, other)
    ensures LexLe(Resolved(deps).value, other)
  {
    hide Greedy, FirstReady;
    var order := Resolved(deps).value;
    if order != other {
      var k := FirstDifference(order, other);
      GreedyTakesFirst(deps, |deps|, k);
      assert IsReady(deps, order[..k], other[k]) by {
        assert forall j :: 0 <= j < k ==> other[j] == order[..k][j];
      }
    }
  }

  lemma FirstDifference(a: seq<nat>, b: seq<nat>) returns (k: nat)
    requires |a| == |b| && a != b
    ensures k < |a| && a[k] != b[k] && a[..k] == b[..k]
  {
    k := 0;
    while k < |a| && a[k] == b[k]
      invariant k <= |a| && a[..k] == b[..k]
    {
      k := k + 1;
    }
  }

  // ----- Building the edges -----

  /** The dependency sets that result when the edges of step `i` are charged to step `charge[i]`. */
  function Charged(deps: Deps, charge: seq<nat>): (charged: Deps)
    requires |charge| == |deps|
    ensures |charged| == |deps|
  {
    seq(|deps|, c requires 0 <= c < |deps| => set i, d | 0 <= i < |deps| && charge[i] == c && d in deps[i] :: d)
  }

  ghost predicate ListedSoFar(children: seq<seq<nat>>, deps: Deps, charge: seq<nat>, i: nat, done: set<nat>)
    requires |charge| == |deps|
  {
    && |children| == |deps|
    && forall v, c :: 0 <= v < |children| ==> (c in children[v] <==>
         exists j :: 0 <= j < |deps| && charge[j] == c && v in deps[j] && (j < i || (j == i && v in done)))
  }

  lemma {:induction false} PendingOfMore(children: seq<seq<nat>>, v: nat, x: nat, c: nat, k: nat)
    requires v < |children| && k <= |children|
    ensures Pending(children[v := children[v] + [x]], [], c, k)
      == Pending(children, [], c, k) + if v < k && c == x then 1 else 0
  {
    if k > 0 {
      PendingOfMore(children, v, x, c, k - 1);
    }
  }

  lemma {:induction false} NothingPending(children: seq<seq<nat>>, c: nat, k: nat)
    requires k <= |children| && forall v :: 0 <= v < |children| ==> children[v] == []
    ensures Pending(children, [], c, k) == 0
  {
    if k > 0 {
      NothingPending(children, c, k - 1);
    }
  }

  lemma OneMoreEdge(children: seq<seq<nat>>, indeg: seq<nat>, d: nat, c: nat)
    requires Counts(children, [], indeg) && d < |children| && c < |children|
    ensures Counts(children[d := children[d] + [c]], [], indeg[c := indeg[c] + 1])
  {
    hide Pending;
    forall x: nat ensures Pending(children[d := children[d] + [c]], [], x, |children|)
      == Pending(children, [], x, |children|) + if x == c then 1 else 0
    {
      PendingOfMore(children, d, c, x, |children|);
    }
  }

  /** The edge-building loops of `resolve`, with the charged step as a parameter. */
  method BuildEdges(deps: Deps, charge: seq<nat>) returns (children: seq<seq<nat>>, indeg: seq<nat>)
    requires WellIndexed(deps) && |charge| == |deps| && forall i :: 0 <= i < |charge| ==> charge[i] < |deps|
    ensures Lists(children, Charged(deps, charge)) && Counts(children, [], indeg)
  {
    hide Counts, ListedSoFar, Lists, Pending;
    var n := |deps|;
    children := seq(n, _ => []);
    indeg := seq(n, _ => 0);
    NoEdges(children, indeg, deps, charge);
    for i := 0 to n
      invariant |children| == |indeg| == n
      invariant ListedSoFar(children, deps, charge, i, {}) && Counts(children, [], indeg)
    {
      var todo := deps[i];
      assert deps[i] - todo == {};
      while todo != {}
        invariant todo <= deps[i] && |children| == |indeg| == n
        invariant ListedSoFar(children, deps, charge, i, deps[i] - todo) && Counts(children, [], indeg)
      {
        var d :| d in todo;
        OneMoreEdge(children, indeg, d, charge[i]);
        OneMoreListed(children, deps, charge, i, deps[i] - todo, d);
        children := children[d := children[d] + [charge[i]]];
        indeg := indeg[charge[i] := indeg[charge[i]] + 1];
        assert deps[i] - (todo - {d}) == deps[i] - todo + {d};
        todo := todo - {d};
      }
      assert deps[i] - {} == deps[i];
      StepListed(children, deps, charge, i);
    }
    AllListed(children, deps, charge);
  }

  lemma NoEdges(children: seq<seq<nat>>, indeg: seq<nat>, deps: Deps, charge: seq<nat>)
    requires |children| == |indeg| == |deps| == |charge|
    requires forall v :: 0 <= v < |children| ==> children[v] == [] && indeg[v] == 0
    ensures ListedSoFar(children, deps, charge, 0, {}) && Counts(children, [], indeg)
  {
    hide Pending;
    forall c: nat ensures Pending(children, [], c, |children|) == 0 {
      NothingPending(children, c, |children|);
    }
  }

  lemma OneMoreListed(children: seq<seq<nat>>, deps: Deps, charge: seq<nat>, i: nat, done: set<nat>, d: nat)
    requires i < |deps| == |charge| && d in deps[i] && d < |children| && ListedSoFar(children, deps, charge, i, done)
    ensures ListedSoFar(children[d := children[d] + [charge[i]]], deps, charge, i, done + {d})
  {
    var more := children[d := children[d] + [charge[i]]];
    forall v, c | 0 <= v < |more|
      ensures c in more[v] <==>
        exists j :: 0 <= j < |deps| && charge[j] == c && v in deps[j] && (j < i || (j == i && v in done + {d}))
    {
      assert c in more[v] <==> c in children[v] || (v == d && c == charge[i]);
    }
  }

  lemma StepListed(children: seq<seq<nat>>, deps: Deps, charge: seq<nat>, i: nat)
    requires i < |deps| == |charge| && ListedSoFar(children, deps, charge, i, deps[i])
    ensures ListedSoFar(children, deps, charge, i + 1, {})
  {}

  lemma AllListed(children: seq<seq<nat>>, deps: Deps, charge: seq<nat>)
    requires WellIndexed(deps) && |charge| == |deps| && forall i :: 0 <= i < |charge| ==> charge[i] < |deps|
    requires ListedSoFar(children, deps, charge, |deps|, {})
    ensures Lists(children, Charged(deps, charge))
  {
    var charged := Charged(deps, charge);
    forall c, d | 0 <= c < |charged| && d in charged[c] ensures d < |deps| {
      var i :| 0 <= i < |deps| && charge[i] == c && d in deps[i];
    }
  }

  // ----- The edges as they are charged -----

  function Identity(n: nat): (order: seq<nat>)
    ensures |order| == n && forall i :: 0 <= i < n ==> order[i] == i
    ensures forall i :: i in order <==> 0 <= i < n
  {
    if n == 0 then [] else Identity(n - 1) + [n - 1]
  }

  /** Every edge goes to the step that owns the dependency. */
  function ToOwner(deps: Deps): seq<nat> {
    Identity(|deps|)
  }

  /** Every edge goes to the step that was declared last, as the loops of `resolve` do it. */
  function ToLast(deps: Deps): (charge: seq<nat>)
    requires deps != []
    ensures |charge| == |deps|
  {
    seq(|deps|, _ => |deps| - 1)
  }

  predicate DependsOnLast(deps: Deps)
    requires deps != []
  {
    exists i :: 0 <= i < |deps| && |deps| - 1 in deps[i]
  }

  predicate DeclaredEarlier(deps: Deps) {
    forall i :: 0 <= i < |deps| ==> forall d :: d in deps[i] ==> d < i
  }

  lemma ChargedToOwner(deps: Deps)
    ensures Charged(deps, ToOwner(deps)) == deps
  {
    var charge := ToOwner(deps);
    forall c | 0 <= c < |deps| ensures Charged(deps, charge)[c] == deps[c] {
      forall d | d in deps[c] ensures d in Charged(deps, charge)[c] {
        assert charge[c] == c;
      }
    }
  }

  /** All the steps that some step waits for. */
  function Awaited(deps: Deps): set<nat> {
    set i, d | 0 <= i < |deps| && d in deps[i] :: d
  }

  lemma ChargedToLast(deps: Deps, c: nat)
    requires deps != [] && c < |deps|
    ensures Charged(deps, ToLast(deps))[c] == if c == |deps| - 1 then Awaited(deps) else {}
  {
    var charge := ToLast(deps);
    forall d | c == |deps| - 1 && d in Awaited(deps) ensures d in Charged(deps, charge)[c] {
      var i :| 0 <= i < |deps| && d in deps[i];
      assert charge[i] == c;
    }
  }

  lemma NotReadyAgain(deps: Deps, k: nat)
    ensures forall j: nat :: IsReady(deps, Identity(k), j) ==> k <= j
  {}

  /** Only the last step ever waits, so the others are taken as declared. */
  lemma {:induction false} ChargedToLastIsDeclared(deps: Deps, k: nat)
    requires deps != [] && k < |deps|
    ensures Greedy(Charged(deps, ToLast(deps)), k) == Identity(k)
  {
    hide FirstReady, Charged;
    var charged := Charged(deps, ToLast(deps));
    if k > 0 {
      ChargedToLastIsDeclared(deps, k - 1);
      ChargedToLast(deps, k - 1);
      assert IsReady(charged, Identity(k - 1), k - 1);
      NotReadyAgain(charged, k - 1);
      assert Identity(k - 1) + [k - 1] == Identity(k);
    }
  }

  /** As charged, a plan is refused when some step depends on the last one and is else left as declared. */
  lemma ChargedToLastResolves(deps: Deps)
    requires deps != [] && WellIndexed(deps)
    ensures Resolved(Charged(deps, ToLast(deps)))
      == if DependsOnLast(deps) then None else Some(Identity(|deps|))
  {
    hide FirstReady, Charged, Greedy;
    var n, charged := |deps|, Charged(deps, ToLast(deps));
    ChargedToLastIsDeclared(deps, n - 1);
    var order := Identity(n - 1);
    NotReadyAgain(charged, n - 1);
    LastIsReady(deps);
    LastRound(charged, order);
    assert order + [n - 1] == Identity(n);
  }

  lemma LastRound(deps: Deps, order: seq<nat>)
    requires deps != [] && order == Greedy(deps, |deps| - 1)
    requires forall j: nat :: IsReady(deps, order, j) ==> |deps| - 1 <= j
    ensures Greedy(deps, |deps|) == if IsReady(deps, order, |deps| - 1) then order + [|deps| - 1] else order
  {
    hide FirstReady, IsReady;
    ReadyIsInRange(deps, order);
    var next := FirstReady(deps, order, 0);
    assert next.Some? ==> next.value == |deps| - 1;
  }

  lemma LastIsReady(deps: Deps)
    requires deps != [] && WellIndexed(deps)
    ensures IsReady(Charged(deps, ToLast(deps)), Identity(|deps| - 1), |deps| - 1) <==> !DependsOnLast(deps)
  {
    hide Charged;
    var n, charged, order := |deps|, Charged(deps, ToLast(deps)), Identity(|deps| - 1);
    ChargedToLast(deps, n - 1);
    assert n - 1 !in order;
    assert DependsOnLast(deps) <==> n - 1 in Awaited(deps);
    assert forall d :: d in Awaited(deps) ==> 0 <= d < n;
  }

  /** When every dependency is declared earlier, the declared order is the right one. */
  lemma DeclaredOrderIsRight(deps: Deps)
    ensures DeclaredEarlier(deps) <==> Resolved(deps) == Some(Identity(|deps|))
  {
    hide Greedy, FirstReady;
    var n, declared := |deps|, Identity(|deps|);
    if DeclaredEarlier(deps) {
      forall i | 0 <= i < n ensures deps[declared[i]] <= Before(declared, i) {
        forall d | d in deps[i] ensures d in Before(declared, i) { assert declared[d] == d; }
      }
      assert Topological(deps, declared);
      var rank := RankOfOrder(deps, declared);
      RankedIsAcyclic(GraphOf(deps), rank);
      ResolvedIffAcyclic(deps);
      ResolvedIsTopological(deps);
      ResolvedIsLeast(deps, declared);
      NothingIsBelowIdentity(Resolved(deps).value);
    }
    if Resolved(deps) == Some(declared) {
      ResolvedIsTopological(deps);
      forall i, d | 0 <= i < n && d in deps[i] ensures d < i {
        assert declared[i] == i;
        assert d in Before(declared, i);
      }
    }
  }

  lemma {:induction false} IdentityPrefix(n: nat, k: nat)
    requires k <= n
    ensures Identity(n)[..k] == Identity(k)
  {
    if k < n {
      IdentityPrefix(n - 1, k);
      assert Identity(n)[..k] == Identity(n - 1)[..k];
    }
  }

  lemma NothingIsBelowIdentity(order: seq<nat>)
    requires forall i, j :: 0 <= i < j < |order| ==> order[i] != order[j]
    ensures LexLe(order, Identity(|order|)) ==> order == Identity(|order|)
  {
    var n := |order|;
    if LexLe(order, Identity(n)) && order != Identity(n) {
      var k: nat :| k < n && order[..k] == Identity(n)[..k] && order[k] < Identity(n)[k];
      assert order[k] !in order[..k];
      IdentityPrefix(n, k);
    }
  }

  /** Charging every edge to the last step gives the intended result exactly for plans that are
      declared in order, and for cyclic plans in which some step depends on the last one. */
  lemma ChargedToLastIsRightIff(deps: Deps)
    requires deps != [] && WellIndexed(deps)
    ensures Resolved(Charged(deps, ToLast(deps))) == Resolved(Charged(deps, ToOwner(deps)))
      <==> DeclaredEarlier(deps) || (Cyclic(GraphOf(deps)) && DependsOnLast(deps))
  {
    hide Charged, Greedy;
    ChargedToOwner(deps);
    ChargedToLastResolves(deps);
    ResolvedIffAcyclic(deps);
    DeclaredOrderIsRight(deps);
  }

  /** With `x` waiting for `y`, then `y` and `z`, the plan is accepted and runs `x` first. */
  lemma WrongOrderIsAccepted()
    ensures var deps: Deps := [{1}, {}, {}];
      && Resolved(Charged(deps, ToLast(deps))) == Some([0, 1, 2])
      && Resolved(Charged(deps, ToOwner(deps))) == Some([1, 0, 2])
  {
    hide Charged, Greedy, FirstReady, IsReady, Identity;
    var deps: Deps := [{1}, {}, {}];
    ChargedToOwner(deps);
    ChargedToLastResolves(deps);
    assert Identity(3) == [0, 1, 2];
    GreedyStarts(deps);
    ReadyInExample();
    TakesNext(deps, 0, 1);
    assert Greedy(deps, 1) == [1];
    TakesNext(deps, 1, 0);
    assert Greedy(deps, 2) == [1, 0];
    TakesNext(deps, 2, 2);
    assert Greedy(deps, 3) == [1, 0, 2];
  }

  lemma GreedyStarts(deps: Deps)
    ensures Greedy(deps, 0) == []
  {}

  lemma TakesNext(deps: Deps, k: nat, i: nat)
    requires IsReady(deps, Greedy(deps, k), i) && forall j: nat :: j < i ==> !IsReady(deps, Greedy(deps, k), j)
    ensures Greedy(deps, k + 1) == Greedy(deps, k) + [i]
  {
    hide IsReady, FirstReady;
    var next := FirstReady(deps, Greedy(deps, k), 0);
    assert next == Some(i);
  }

  lemma ReadyInExample()
    ensures var deps: Deps := [{1}, {}, {}];
      && !IsReady(deps, [], 0) && IsReady(deps, [], 1)
      && IsReady(deps, [1], 0)
      && !IsReady(deps, [1, 0], 0) && !IsReady(deps, [1, 0], 1) && IsReady(deps, [1, 0], 2)
  {
    assert 1 in {1};
  }

  // ----- Plans with named steps -----

  datatype PlanStep = PlanStep(stepId: string, dependsOn: seq<string>)

  datatype PlanOrderResult = PlanOrderResult(order: seq<string>, cyclic: bool, missingDeps: seq<string>, ok: bool)

  datatype PlanError = EmptyStepId | DuplicateStepId(id: string)

  datatype Plan = Plan(ids: seq<string>, deps: seq<set<string>>)

  function Wanted(dependsOn: seq<string>): set<string> {
    set d | d in dependsOn && Strip(d) != "" :: Strip(d)
  }

  /** The stripped ids and dependencies, or the first id that is empty or repeated. */
  function ReadSteps(steps: seq<PlanStep>): (plan: Result<Plan, PlanError>)
    ensures plan.Ok? ==> |plan.value.ids| == |plan.value.deps| == |steps|
  {
    if steps == [] then Ok(Plan([], [])) else
      var front, step := ReadSteps(steps[..|steps| - 1]), steps[|steps| - 1];
      var sid := Strip(step.stepId);
      if front.Err? then front
      else if sid == "" then Err(EmptyStepId)
      else if sid in front.value.ids then Err(DuplicateStepId(sid))
      else Ok(Plan(front.value.ids + [sid], front.value.deps + [Wanted(step.dependsOn)]))
  }

  function MissingDeps(plan: Plan): set<string> {
    set i, d | 0 <= i < |plan.deps| && d in plan.deps[i] && d !in plan.ids :: d
  }

  /** The dependencies as declaration indices. */
  function IndexDeps(plan: Plan): (deps: Deps)
    ensures |deps| == |plan.deps|
  {
    seq(|plan.deps|, i requires 0 <= i < |plan.deps| => set k: nat | k < |plan.ids| && plan.ids[k] in plan.deps[i])
  }

  function Names(order: seq<nat>, ids: seq<string>): seq<string>
    requires forall i :: i in order ==> i < |ids|
  {
    seq(|order|, k requires 0 <= k < |order| => assert order[k] in order; ids[order[k]])
  }

  /** What is answered for an order over the indices; an incomplete one means a cycle. */
  function Answer(order: Option<seq<nat>>, ids: seq<string>): PlanOrderResult
    requires order.Some? ==> forall i :: i in order.value ==> i < |ids|
  {
    if order.None? then PlanOrderResult([], true, [], false)
    else PlanOrderResult(Names(order.value, ids), false, [], true)
  }

  lemma {:induction false} EarlierStepErrorStays(steps: seq<PlanStep>, k: nat)
    requires k <= |steps|
    ensures ReadSteps(steps[..k]).Err? ==> ReadSteps(steps) == ReadSteps(steps[..k])
  {
    hide Strip, Wanted;
    if k == |steps| {
      assert steps[..k] == steps;
    } else {
      assert steps[..|steps| - 1][..k] == steps[..k];
      EarlierStepErrorStays(steps[..|steps| - 1], k);
    }
  }

  lemma IndexDepsIsWellIndexed(plan: Plan)
    ensures |plan.ids| == |plan.deps| ==> WellIndexed(IndexDeps(plan))
  {}

  lemma GreedyIsInRange(deps: Deps, k: nat)
    ensures forall i :: i in Greedy(deps, k) ==> i < |deps|
  {
    GreedyIsDistinct(deps, k);
  }

  lemma NothingMissing()
    ensures MissingDeps(Plan([], [])) == {}
  {}

  lemma OrderIsInRange(deps: Deps)
    ensures Resolved(deps).Some? ==> forall i :: i in Resolved(deps).value ==> i < |deps|
  {
    GreedyIsInRange(deps, |deps|);
  }

  /** What is answered for steps that were read. */
  function Outcome(plan: Plan): PlanOrderResult
    requires |plan.ids| == |plan.deps|
  {
    var missing := MissingDeps(plan);
    if plan.ids == [] then PlanOrderResult([], false, [], true)
    else if missing != {} then PlanOrderResult([], false, Text.Sorted(missing), false)
    else
      var deps := IndexDeps(plan);
      OrderIsInRange(Charged(deps, ToLast(deps)));
      Answer(Resolved(Charged(deps, ToLast(deps))), plan.ids)
  }

  function ResolvedPlan(steps: seq<PlanStep>): Result<PlanOrderResult, PlanError> {
    match ReadSteps(steps)
    case Err(error) => Err(error)
    case Ok(plan) => Ok(Outcome(plan))
  }

  /** `PlanStepDependencyResolver.resolve`, with the edges charged as its loops charge them. */
  method Resolve(steps: seq<PlanStep>) returns (result: Result<PlanOrderResult, PlanError>)
    ensures result == ResolvedPlan(steps)
  {
    hide Charged, IndexDeps, Strip, Wanted, MissingDeps, Lists, Counts, WellIndexed, Greedy, Text.Sorted;
    if steps == [] {
      NothingMissing();
      return Ok(PlanOrderResult([], false, [], true));
    }
    var plan := Plan([], []);
    for k := 0 to |steps|
      invariant ReadSteps(steps[..k]) == Ok(plan)
    {
      assert steps[..k + 1][..k] == steps[..k];
      var sid := Strip(steps[k].stepId);
      if sid == "" {
        EarlierStepErrorStays(steps, k + 1);
        return Err(EmptyStepId);
      }
      if sid in plan.ids {
        EarlierStepErrorStays(steps, k + 1);
        return Err(DuplicateStepId(sid));
      }
      plan := Plan(plan.ids + [sid], plan.deps + [Wanted(steps[k].dependsOn)]);
    }
    assert steps[..|steps|] == steps;
    var missing := MissingDeps(plan);
    if missing != {} {
      return Ok(PlanOrderResult([], false, Text.Sorted(missing), false));
    }
    var deps := IndexDeps(plan);
    IndexDepsIsWellIndexed(plan);
    var children, indeg := BuildEdges(deps, ToLast(deps));
    var order := Kahn(children, indeg, Charged(deps, ToLast(deps)));
    GreedyIsInRange(Charged(deps, ToLast(deps)), |deps|);
    if |order| != |plan.ids| {
      return Ok(PlanOrderResult([], true, [], false));
    }
    return Ok(PlanOrderResult(Names(order, plan.ids), false, [], true));
  }

  /** Ids are accepted exactly when they are non-empty and different after stripping. */
  lemma {:induction false} StepsAreReadIff(steps: seq<PlanStep>)
    ensures ReadSteps(steps).Ok? <==>
      && (forall i :: 0 <= i < |steps| ==> Strip(steps[i].stepId) != "")
      && (forall i, j :: 0 <= i < j < |steps| ==> Strip(steps[i].stepId) != Strip(steps[j].stepId))
    ensures ReadSteps(steps).Ok? ==>
      forall i :: 0 <= i < |steps| ==> ReadSteps(steps).value.ids[i] == Strip(steps[i].stepId)
  {
    hide Strip, Wanted;
    if steps != [] {
      var front := steps[..|steps| - 1];
      StepsAreReadIff(front);
      assert forall i :: 0 <= i < |front| ==> steps[i] == front[i];
      if ReadSteps(front).Ok? {
        var ids := ReadSteps(front).value.ids;
        assert forall i :: 0 <= i < |ids| ==> ids[i] in ids;
      }
    }
  }

  // ----- From the steps to the answer -----

  function IdOf(step: PlanStep): string {
    Strip(step.stepId)
  }

  /** The step names `d` among its dependencies, white space apart. */
  predicate DependsOn(step: PlanStep, d: string) {
    d != "" && exists k :: 0 <= k < |step.dependsOn| && Strip(step.dependsOn[k]) == d
  }

  predicate IsStep(steps: seq<PlanStep>, d: string) {
    exists i :: 0 <= i < |steps| && IdOf(steps[i]) == d
  }

  /** A dependency on something that is no step of the plan. */
  predicate IsMissing(steps: seq<PlanStep>, d: string) {
    !IsStep(steps, d) && exists i :: 0 <= i < |steps| && DependsOn(steps[i], d)
  }

  /** The dependencies between the steps, by declaration index. */
  ghost predicate Depicts(steps: seq<PlanStep>, deps: Deps) {
    && |deps| == |steps| && WellIndexed(deps)
    && forall i: nat, j: nat :: i < |steps| && j < |steps| ==> (j in deps[i] <==> DependsOn(steps[i], IdOf(steps[j])))
  }

  lemma WantedIsNamed(step: PlanStep)
    ensures forall d :: d in Wanted(step.dependsOn) <==> DependsOn(step, d)
  {
    hide Strip;
    forall d | DependsOn(step, d) ensures d in Wanted(step.dependsOn) {
      var k :| 0 <= k < |step.dependsOn| && Strip(step.dependsOn[k]) == d;
      assert step.dependsOn[k] in step.dependsOn;
    }
  }

  lemma {:induction false} PlanIsRead(steps: seq<PlanStep>)
    ensures ReadSteps(steps).Ok? ==>
      var plan := ReadSteps(steps).value;
      && |plan.ids| == |plan.deps| == |steps|
      && (forall i :: 0 <= i < |steps| ==> plan.ids[i] == IdOf(steps[i]))
      && (forall i, d :: 0 <= i < |steps| ==> (d in plan.deps[i] <==> DependsOn(steps[i], d)))
  {
    hide Wanted, DependsOn, Strip;
    if steps != [] {
      var front := steps[..|steps| - 1];
      PlanIsRead(front);
      WantedIsNamed(steps[|steps| - 1]);
      assert forall i :: 0 <= i < |front| ==> front[i] == steps[i];
    }
  }

  /** The `i`-th step is the first with an empty id, or with the id of an earlier step. */
  predicate Offends(steps: seq<PlanStep>, i: nat) {
    i < |steps| && (IdOf(steps[i]) == "" || exists j :: 0 <= j < i && IdOf(steps[j]) == IdOf(steps[i]))
  }

  predicate FirstOffence(steps: seq<PlanStep>, i: nat) {
    Offends(steps, i) && forall j: nat :: j < i ==> !Offends(steps, j)
  }

  /** A plan is refused for its first offending step. */
  lemma {:induction false} PlanRefusalIsExact(steps: seq<PlanStep>)
    ensures ReadSteps(steps).Err? <==> exists i: nat :: FirstOffence(steps, i)
    ensures forall i: nat :: FirstOffence(steps, i) ==>
      ReadSteps(steps)
        == Err(if IdOf(steps[i]) == "" then EmptyStepId else DuplicateStepId(IdOf(steps[i])))
  {
    hide Wanted, Strip, Offends;
    if steps == [] {
      NobodyOffends();
    } else {
      var n, front := |steps| - 1, steps[..|steps| - 1];
      PlanRefusalIsExact(front);
      PlanIsRead(front);
      forall i: nat | i < n ensures Offends(steps, i) <==> Offends(front, i) { OffendsAlready(steps, i); }
      OffendersAreSteps(steps);
      OffendersAreSteps(front);
      if ReadSteps(front).Err? {
        var i: nat :| FirstOffence(front, i);
        assert FirstOffence(steps, i);
      } else {
        LastOffends(steps);
        assert forall i: nat :: Offends(front, i) ==> exists j: nat :: FirstOffence(front, j) by {
          SomeoneIsFirst(front);
        }
        assert Offends(steps, n) ==> FirstOffence(steps, n);
      }
    }
  }

  lemma NobodyOffends()
    ensures forall i: nat :: !Offends([], i)
  {}

  lemma OffendsAlready(steps: seq<PlanStep>, i: nat)
    requires i < |steps| - 1
    ensures Offends(steps, i) <==> Offends(steps[..|steps| - 1], i)
  {
    var front := steps[..|steps| - 1];
    assert forall j :: 0 <= j < |front| ==> front[j] == steps[j];
  }

  lemma OffendersAreSteps(steps: seq<PlanStep>)
    ensures forall i: nat :: Offends(steps, i) ==> i < |steps|
  {}

  lemma LastOffends(steps: seq<PlanStep>)
    requires steps != [] && ReadSteps(steps[..|steps| - 1]).Ok?
    ensures var n, plan := |steps| - 1, ReadSteps(steps[..|steps| - 1]).value;
      Offends(steps, n) <==> IdOf(steps[n]) == "" || IdOf(steps[n]) in plan.ids
  {
    hide Strip;
    var n, front := |steps| - 1, steps[..|steps| - 1];
    PlanIsRead(front);
    assert forall j :: 0 <= j < n ==> front[j] == steps[j];
  }

  lemma SomeoneIsFirst(steps: seq<PlanStep>)
    ensures forall i: nat :: Offends(steps, i) ==> exists j: nat :: FirstOffence(steps, j)
  {
    forall i: nat | Offends(steps, i) ensures exists j: nat :: FirstOffence(steps, j) {
      var j := FirstFrom(steps, i);
    }
  }

  lemma {:induction false} FirstFrom(steps: seq<PlanStep>, i: nat) returns (first: nat)
    requires Offends(steps, i)
    ensures FirstOffence(steps, first)
    decreases i
  {
    hide Offends;
    if j: nat :| j < i && Offends(steps, j) {
      first := FirstFrom(steps, j);
    } else {
      first := i;
    }
  }

  function AllIds(steps: seq<PlanStep>): seq<string> {
    seq(|steps|, i requires 0 <= i < |steps| => IdOf(steps[i]))
  }

  lemma MissingIsExact(steps: seq<PlanStep>)
    requires ReadSteps(steps).Ok?
    ensures forall d :: d in MissingDeps(ReadSteps(steps).value) <==> IsMissing(steps, d)
  {
    hide Strip, DependsOn;
    PlanIsRead(steps);
    var plan := ReadSteps(steps).value;
    forall d ensures d in MissingDeps(plan) <==> IsMissing(steps, d) {
      if IsMissing(steps, d) {
        var i :| 0 <= i < |steps| && DependsOn(steps[i], d);
        assert d in plan.deps[i];
      }
      assert d in plan.ids <==> IsStep(steps, d) by {
        if IsStep(steps, d) {
          var i :| 0 <= i < |steps| && IdOf(steps[i]) == d;
          assert plan.ids[i] == d;
        }
      }
    }
  }

  lemma IndexDepsDepict(steps: seq<PlanStep>)
    requires ReadSteps(steps).Ok?
    ensures Depicts(steps, IndexDeps(ReadSteps(steps).value))
  {
    hide Strip, DependsOn, ReadSteps;
    PlanIsRead(steps);
  }

  /**
    What is answered, from the steps as they were written. Unknown dependencies are listed in order, white
    space and blank ones apart. Otherwise the ids come back as declared - unless some step names the one
    declared last, and then the plan is called cyclic.
  */
  lemma ResolveIsExact(steps: seq<PlanStep>)
    requires ResolvedPlan(steps).Ok?
    ensures var r := ResolvedPlan(steps).value;
      && ((exists d :: IsMissing(steps, d)) ==>
            && r == PlanOrderResult([], false, r.missingDeps, false) && InOrder(r.missingDeps)
            && forall d :: d in r.missingDeps <==> IsMissing(steps, d))
      && ((forall d :: !IsMissing(steps, d)) ==>
            r == if steps != [] && exists i :: 0 <= i < |steps| && DependsOn(steps[i], IdOf(steps[|steps| - 1]))
                 then PlanOrderResult([], true, [], false)
                 else PlanOrderResult(AllIds(steps), false, [], true))
  {
    hide DependsOn, ReadSteps, IsMissing, MissingDeps, Outcome, AllIds, IdOf, InOrder;
    PlanIsRead(steps);
    MissingIsExact(steps);
    var plan := ReadSteps(steps).value;
    if steps == [] {
      NothingIsMissing();
      EmptyPlan(plan);
      assert AllIds(steps) == [] by { NoIds(); }
    } else if d :| IsMissing(steps, d) {
      assert d in MissingDeps(plan);
      MissingAnswer(plan);
    } else {
      assert MissingDeps(plan) == {};
      CompleteAnswer(steps);
    }
  }

  lemma NoIds()
    ensures AllIds([]) == []
  {}

  lemma EmptyPlan(plan: Plan)
    requires |plan.ids| == |plan.deps| == 0
    ensures Outcome(plan) == PlanOrderResult([], false, [], true)
  {}

  lemma MissingAnswer(plan: Plan)
    requires |plan.ids| == |plan.deps| > 0 && MissingDeps(plan) != {}
    ensures var r := Outcome(plan);
      && r == PlanOrderResult([], false, r.missingDeps, false) && InOrder(r.missingDeps)
      && forall d :: d in r.missingDeps <==> d in MissingDeps(plan)
  {
    hide MissingDeps, IndexDeps, Charged, Resolved, Text.Sorted, InOrder;
    Text.SortedIsInOrder(MissingDeps(plan));
  }

  lemma CompleteAnswer(steps: seq<PlanStep>)
    requires steps != [] && ReadSteps(steps).Ok?
    requires |ReadSteps(steps).value.ids| == |ReadSteps(steps).value.deps|
    requires MissingDeps(ReadSteps(steps).value) == {}
    ensures Outcome(ReadSteps(steps).value)
      == if exists i :: 0 <= i < |steps| && DependsOn(steps[i], IdOf(steps[|steps| - 1]))
         then PlanOrderResult([], true, [], false)
         else PlanOrderResult(AllIds(steps), false, [], true)
  {
    hide DependsOn, ReadSteps, MissingDeps, IndexDeps, Charged, Resolved, Text.Sorted, IdOf;
    PlanIsRead(steps);
    var plan := ReadSteps(steps).value;
    var deps := IndexDeps(plan);
    IndexDepsDepict(steps);
    ChargedToLastResolves(deps);
    LastIsNamed(steps, deps);
    NamesOfAll(plan.ids);
    assert plan.ids == AllIds(steps);
  }

  lemma LastIsNamed(steps: seq<PlanStep>, deps: Deps)
    requires steps != [] && Depicts(steps, deps)
    ensures DependsOnLast(deps) <==> exists i :: 0 <= i < |steps| && DependsOn(steps[i], IdOf(steps[|steps| - 1]))
  {
    hide DependsOn, IdOf;
    var n := |steps| - 1;
    forall i: nat | i < |steps| ensures n in deps[i] <==> DependsOn(steps[i], IdOf(steps[n])) {}
    if i :| 0 <= i < |deps| && n in deps[i] {
      assert DependsOn(steps[i], IdOf(steps[n]));
    }
    if i :| 0 <= i < |steps| && DependsOn(steps[i], IdOf(steps[n])) {
      assert n in deps[i];
    }
  }

  lemma NothingIsMissing()
    ensures forall d :: !IsMissing([], d)
  {}

  lemma NamesOfAll(ids: seq<string>)
    ensures Names(Identity(|ids|), ids) == ids
  {}

  /**
    The intended answer, from the same steps: with the edges charged to their owners the order names every
    step once, each after all that it depends on, the earliest declared first; and there is one exactly
    when no step depends on itself through others.
  */
  lemma IntendedOrderIsExact(steps: seq<PlanStep>) returns (deps: Deps)
    requires ReadSteps(steps).Ok?
    ensures Depicts(steps, deps)
    ensures Resolved(Charged(deps, ToOwner(deps))).Some? <==> !Cyclic(GraphOf(deps))
    ensures Resolved(Charged(deps, ToOwner(deps))).Some? ==>
      var order := Resolved(Charged(deps, ToOwner(deps))).value;
      && Topological(deps, order)
      && forall other :: Topological(deps, other) ==> LexLe(order, other)
  {
    hide Resolved, Charged, Topological, LexLe, DependsOn, ReadSteps, IndexDeps;
    deps := IndexDeps(ReadSteps(steps).value);
    IndexDepsDepict(steps);
    ChargedToOwner(deps);
    ResolvedIffAcyclic(deps);
    if Resolved(deps).Some? {
      ResolvedIsTopological(deps);
      forall other | Topological(deps, other) ensures LexLe(Resolved(deps).value, other) {
        ResolvedIsLeast(deps, other);
      }
    }
  }
}
