/** Dependency graphs: chains, cycles, and why a set in which every node waits holds a cycle. */
module Dependencies {

  /** What each node depends on. */
  type Graph<T> = map<T, set<T>>

  predicate Closed<T>(g: Graph<T>) {
    forall t :: t in g ==> g[t] <= g.Keys
  }

  /** Each node of a chain depends on the one after it. */
  predicate IsChain<T(==)>(g: Graph<T>, c: seq<T>) {
    && c != []
    && (forall i :: 0 <= i < |c| ==> c[i] in g)
    && (forall i :: 0 <= i < |c| - 1 ==> c[i + 1] in g[c[i]])
  }

  ghost predicate OnCycle<T(!new)>(g: Graph<T>, t: T) {
    exists c :: IsChain(g, c) && |c| >= 2 && c[0] == t && c[|c| - 1] == t
  }

  ghost predicate Reaches<T(!new)>(g: Graph<T>, s: T, t: T) {
    exists c :: IsChain(g, c) && c[0] == s && c[|c| - 1] == t
  }

  ghost predicate Cyclic<T(!new)>(g: Graph<T>) {
    exists t :: OnCycle(g, t)
  }

  /** The node lies on a cycle or depends, directly or not, on one that does. */
  ghost predicate NeedsCycle<T(!new)>(g: Graph<T>, s: T) {
    exists t :: Reaches(g, s, t) && OnCycle(g, t)
  }

  /** Numbers that every dependency strictly lowers. */
  predicate Ranks<T>(g: Graph<T>, rank: map<T, nat>) {
    && rank.Keys == g.Keys
    && forall t, d :: t in g && d in g[t] && d in rank ==> rank[d] < rank[t]
  }

  lemma {:induction false} NoRepeatFits<T>(c: seq<T>, s: set<T>)
    requires forall i :: 0 <= i < |c| ==> c[i] in s
    requires forall i, j :: 0 <= i < j < |c| ==> c[i] != c[j]
    ensures |c| <= |s|
    decreases |c|
  {
    if c != [] {
      var front, last := c[..|c| - 1], c[|c| - 1];
      NoRepeatFits(front, s - {last});
    }
  }

  lemma SubChain<T(!new)>(g: Graph<T>, c: seq<T>, i: nat, j: nat)
    requires IsChain(g, c) && i <= j < |c|
    ensures IsChain(g, c[i..j + 1])
  {
    var d := c[i..j + 1];
    assert forall k :: 0 <= k < |d| ==> d[k] == c[i + k];
    forall k | 0 <= k < |d| - 1 ensures d[k + 1] in g[d[k]] {
      assert c[i + k + 1] in g[c[i + k]];
    }
  }

  /** A chain that meets a node twice leads to a cycle. */
  lemma RepeatIsCycle<T(!new)>(g: Graph<T>, c: seq<T>, i: nat, j: nat)
    requires IsChain(g, c) && i < j < |c| && c[i] == c[j]
    ensures NeedsCycle(g, c[0])
  {
    SubChain(g, c, 0, i);
    SubChain(g, c, i, j);
    var to, around := c[0..i + 1], c[i..j + 1];
    assert to[0] == c[0] && to[|to| - 1] == c[i];
    assert around[0] == c[i] && around[|around| - 1] == c[j];
    assert Reaches(g, c[0], c[i]);
    assert OnCycle(g, c[i]);
  }

  /** A non-empty set of nodes each of which waits for another of the set. */
  predicate Stuck<T>(g: Graph<T>, s: set<T>) {
    s <= g.Keys && forall t :: t in s ==> g[t] * s != {}
  }

  lemma {:induction false} WalkInside<T(!new)>(g: Graph<T>, s: set<T>, t: T, n: nat) returns (c: seq<T>)
    requires Stuck(g, s) && t in s
    ensures |c| == n + 1 && IsChain(g, c) && c[0] == t
    ensures forall i :: 0 <= i < |c| ==> c[i] in s
  {
    if n == 0 {
      c := [t];
    } else {
      var front := WalkInside(g, s, t, n - 1);
      var last := front[|front| - 1];
      var next :| next in g[last] * s;
      c := front + [next];
    }
  }

  lemma StuckNeedsCycle<T(!new)>(g: Graph<T>, s: set<T>, t: T)
    requires Stuck(g, s) && t in s
    ensures NeedsCycle(g, t)
  {
    var c := WalkInside(g, s, t, |s|);
    if forall i, j :: 0 <= i < j < |c| ==> c[i] != c[j] {
      NoRepeatFits(c, s);
      assert false;
    }
    var i, j :| 0 <= i < j < |c| && c[i] == c[j];
    RepeatIsCycle(g, c, i, j);
  }

  lemma {:induction false} RankFallsAlong<T(!new)>(g: Graph<T>, rank: map<T, nat>, c: seq<T>)
    requires Ranks(g, rank) && IsChain(g, c)
    ensures rank[c[0]] >= rank[c[|c| - 1]] + |c| - 1
    decreases |c|
  {
    if |c| > 1 {
      SubChain(g, c, 1, |c| - 1);
      var rest := c[1..|c| - 1 + 1];
      RankFallsAlong(g, rank, rest);
      assert rest[0] == c[1] && rest[|rest| - 1] == c[|c| - 1];
      assert c[0 + 1] in g[c[0]];
    }
  }

  lemma RankedIsAcyclic<T(!new)>(g: Graph<T>, rank: map<T, nat>)
    requires Ranks(g, rank)
    ensures !Cyclic(g)
  {
    forall c | IsChain(g, c) && |c| >= 2 ensures c[0] != c[|c| - 1] {
      RankFallsAlong(g, rank, c);
    }
  }

  /** A node on or above a cycle starts chains of every length. */
  lemma {:induction false} Unrolled<T(!new)>(g: Graph<T>, t: T, n: nat) returns (c: seq<T>)
    requires OnCycle(g, t)
    ensures IsChain(g, c) && c[0] == t && c[|c| - 1] == t && |c| > n
  {
    var around :| IsChain(g, around) && |around| >= 2 && around[0] == t && around[|around| - 1] == t;
    c := around;
    if n > 0 {
      var more := Unrolled(g, t, n - 1);
      c := Joined(g, around, more);
    }
  }

  lemma Joined<T(!new)>(g: Graph<T>, c: seq<T>, d: seq<T>) returns (e: seq<T>)
    requires IsChain(g, c) && IsChain(g, d) && c[|c| - 1] == d[0]
    ensures IsChain(g, e) && |e| == |c| + |d| - 1 && e[0] == c[0] && e[|e| - 1] == d[|d| - 1]
  {
    e := c + d[1..];
    assert forall i :: 0 <= i < |c| ==> e[i] == c[i];
    assert forall i :: |c| - 1 <= i < |e| ==> e[i] == d[i - (|c| - 1)];
    forall i | 0 <= i < |e| - 1 ensures e[i + 1] in g[e[i]] {
      if i + 1 < |c| {
        assert c[i + 1] in g[c[i]];
      } else {
        var k := i - (|c| - 1);
        assert d[k + 1] in g[d[k]];
      }
    }
  }
}
