/** Waves of tool calls that can run in parallel, layered by dependency depth. */
module ToolCallWave {
  import opened Text
  import opened Dependencies

  datatype Mode = Advisory | Hard

  datatype WaveError = EmptyToolId | UnknownDependencies(deps: seq<string>) | CyclicDependencies

  datatype WavePlan = WavePlan(waves: seq<seq<string>>, toolCount: nat, waveCount: nat, mode: Mode)

  /** A mapping entry: a tool id and the ids it depends on, as the caller wrote them. */
  datatype Entry = Entry(toolId: string, deps: seq<string>)

  function StrippedDeps(deps: seq<string>): set<string> {
    set d | d in deps && Strip(d) != "" :: Strip(d)
  }

  /** The mapping after stripping; of two ids that strip to the same one the later wins. */
  function Normalized(tools: seq<Entry>): Option<Graph<string>> {
    if tools == [] then Some(map[]) else
      var front, last := Normalized(tools[..|tools| - 1]), tools[|tools| - 1];
      if front.None? || Strip(last.toolId) == "" then None
      else Some(front.value[Strip(last.toolId) := StrippedDeps(last.deps)])
  }

  function Missing<T>(g: Graph<T>): set<T> {
    set t, d | t in g && d in g[t] && d !in g :: d
  }

  /** The graph without the dependencies that name no tool. */
  function Known<T>(g: Graph<T>): (known: Graph<T>)
    ensures known.Keys == g.Keys && Closed(known)
  {
    map t | t in g :: g[t] * g.Keys
  }

  /** The unresolved tools that wait only for resolved ones. */
  function Ready<T>(g: Graph<T>, remaining: set<T>): (ready: set<T>)
    requires remaining <= g.Keys
    ensures ready <= remaining
  {
    set t | t in remaining && g[t] <= g.Keys - remaining
  }

  /** What is unresolved after `k` waves. */
  function Remaining<T>(g: Graph<T>, k: nat): (r: set<T>)
    ensures r <= g.Keys
  {
    if k == 0 then g.Keys else Remaining(g, k - 1) - Ready(g, Remaining(g, k - 1))
  }

  function Wave<T>(g: Graph<T>, k: nat): (w: set<T>)
    ensures w <= Remaining(g, k)
  {
    Ready(g, Remaining(g, k))
  }

  /** The number of waves from the `k`-th on until no tool is ready. */
  function Height<T>(g: Graph<T>, k: nat): (h: nat)
    ensures k <= h && Wave(g, h) == {}
    ensures forall j :: k <= j < h ==> Wave(g, j) != {}
    decreases |Remaining(g, k)|
  {
    if Wave(g, k) == {} then k else
      FewerRemain(g, k);
      Height(g, k + 1)
  }

  lemma FewerRemain<T>(g: Graph<T>, k: nat)
    ensures Wave(g, k) != {} ==> |Remaining(g, k + 1)| < |Remaining(g, k)|
  {
    assert Remaining(g, k + 1) == Remaining(g, k) - Wave(g, k);
    Shrinks(Remaining(g, k + 1), Remaining(g, k));
  }

  lemma Shrinks<T>(a: set<T>, b: set<T>)
    ensures a < b ==> |a| < |b|
  {
    if a < b {
      var x :| x in b && x !in a;
      assert b == a + {x} + (b - a - {x});
    }
  }

  function ProperWaves(g: Graph<string>, n: nat): (waves: seq<seq<string>>)
    ensures |waves| == n
  {
    if n == 0 then [] else ProperWaves(g, n - 1) + [Sorted(Wave(g, n - 1))]
  }

  /** The outcome for a mapping whose ids and dependencies were accepted. */
  function Layered(g: Graph<string>, mode: Mode): Result<WavePlan, WaveError> {
    var h := Height(g, 0);
    var left := Remaining(g, h);
    if left == {} then Ok(WavePlan(ProperWaves(g, h), |g|, h, mode))
    else if mode.Hard? then Err(CyclicDependencies)
    else Ok(WavePlan(ProperWaves(g, h) + [Sorted(left)], |g|, h + 1, mode))
  }

  function Planned(tools: seq<Entry>, mode: Mode): Result<WavePlan, WaveError> {
    var normalized := Normalized(tools);
    if normalized.None? then Err(EmptyToolId)
    else
      var missing := Missing(normalized.value);
      if missing != {} && mode.Hard? then Err(UnknownDependencies(Sorted(missing)))
      else Layered(Known(normalized.value), mode)
  }

  lemma {:induction false} EmptyIdStays(tools: seq<Entry>, k: nat)
    requires k <= |tools| && Normalized(tools[..k]).None?
    ensures Normalized(tools).None?
  {
    if k == |tools| {
      assert tools[..k] == tools;
    } else {
      assert tools[..|tools| - 1][..k] == tools[..k];
      EmptyIdStays(tools[..|tools| - 1], k);
    }
  }

  predicate NoneEmpty<T>(g: Graph<T>, n: nat) {
    forall j :: 0 <= j < n ==> Wave(g, j) != {}
  }

  /** The height is the first wave that would be empty. */
  lemma HeightIs<T>(g: Graph<T>, h: nat)
    ensures Wave(g, h) == {} && NoneEmpty(g, h) ==> Height(g, 0) == h
  {
    hide Wave;
    var found := Height(g, 0);
  }

  /** `ToolCallWaveScheduler.plan`. */
  method Plan(tools: seq<Entry>, mode: Mode) returns (result: Result<WavePlan, WaveError>)
    ensures result == Planned(tools, mode)
  {
    hide Layered, Known, Missing, Strip, StrippedDeps, Sorted;
    if tools == [] {
      NothingToPlan(mode);
      return Ok(WavePlan([], 0, 0, mode));
    }
    var normalized: Graph<string> := map[];
    for k := 0 to |tools|
      invariant Normalized(tools[..k]) == Some(normalized)
    {
      assert tools[..k + 1][..k] == tools[..k];
      var tid := Strip(tools[k].toolId);
      if tid == "" {
        EmptyIdStays(tools, k + 1);
        return Err(EmptyToolId);
      }
      normalized := normalized[tid := StrippedDeps(tools[k].deps)];
    }
    assert tools[..|tools|] == tools;
    var missing := Missing(normalized);
    if missing != {} && mode.Hard? {
      return Err(UnknownDependencies(Sorted(missing)));
    }
    if missing != {} {
      normalized := Known(normalized);
    } else {
      NothingDropped(normalized);
    }
    result := Waves(normalized, mode);
  }

  lemma NothingToPlan(mode: Mode)
    ensures Planned([], mode) == Ok(WavePlan([], 0, 0, mode))
  {
    assert Normalized([]).value == map[];
    var g: Graph<string> := map[];
    assert Known(g) == g;
    assert Remaining(g, 0) == {};
    HeightIs(g, 0);
  }

  lemma NothingDropped(g: Graph<string>)
    requires Missing(g) == {}
    ensures Known(g) == g
  {
    forall t | t in g ensures g[t] * g.Keys == g[t] {
      forall d | d in g[t] ensures d in g {
        assert d !in Missing(g);
      }
    }
  }

  lemma FirstLayer(g: Graph<string>)
    ensures Remaining(g, 0) == g.Keys && ProperWaves(g, 0) == [] && NoneEmpty(g, 0)
  {}

  lemma NextLayer(g: Graph<string>, k: nat, ready: set<string>)
    requires ready == set t | t in Remaining(g, k) && g[t] <= g.Keys - Remaining(g, k)
    ensures ready == Wave(g, k) && Remaining(g, k + 1) == Remaining(g, k) - ready
    ensures ProperWaves(g, k + 1) == ProperWaves(g, k) + [Sorted(ready)]
    ensures NoneEmpty(g, k) && ready != {} ==> NoneEmpty(g, k + 1)
  {
    hide Sorted;
  }

  /** The layering loop. */
  method Waves(g: Graph<string>, mode: Mode) returns (result: Result<WavePlan, WaveError>)
    requires Closed(g)
    ensures result == Layered(g, mode)
  {
    hide Height, Wave, Ready, Remaining, ProperWaves, Sorted, NoneEmpty, Layered;
    FirstLayer(g);
    var remaining := g.Keys;
    var waves: seq<seq<string>> := [];
    var resolved: set<string> := {};
    while remaining != {}
      invariant remaining == Remaining(g, |waves|) && resolved == g.Keys - remaining
      invariant waves == ProperWaves(g, |waves|)
      invariant NoneEmpty(g, |waves|)
      decreases |remaining|
    {
      var ready := set t | t in remaining && g[t] <= resolved;
      ghost var n := |waves|;
      NextLayer(g, n, ready);
      if ready == {} {
        LayeredIs(g, mode, n);
        if mode.Hard? {
          return Err(CyclicDependencies);
        }
        return Ok(WavePlan(waves + [Sorted(remaining)], |g|, |waves| + 1, mode));
      }
      Shrinks(remaining - ready, remaining);
      waves := waves + [Sorted(ready)];
      remaining := remaining - ready;
      resolved := resolved + ready;
      assert |waves| == n + 1;
    }
    LayeredIs(g, mode, |waves|);
    return Ok(WavePlan(waves, |g|, |waves|, mode));
  }

  lemma LayeredIs(g: Graph<string>, mode: Mode, n: nat)
    requires Wave(g, n) == {} && NoneEmpty(g, n)
    ensures var left := Remaining(g, n);
      Layered(g, mode)
        == if left == {} then Ok(WavePlan(ProperWaves(g, n), |g|, n, mode))
           else if mode.Hard? then Err(CyclicDependencies)
           else Ok(WavePlan(ProperWaves(g, n) + [Sorted(left)], |g|, n + 1, mode))
  {
    hide Wave, Remaining, ProperWaves, Sorted, NoneEmpty;
    HeightIs(g, n);
  }

  // ----- What the layers are -----

  predicate ChainFrom<T(==)>(g: Graph<T>, t: T, c: seq<T>) {
    IsChain(g, c) && c[0] == t
  }

  /** The longest dependency chain that starts at `t` has `n` nodes. */
  ghost predicate LongestChain<T(!new)>(g: Graph<T>, t: T, n: nat) {
    && (exists c :: ChainFrom(g, t, c) && |c| == n)
    && (forall c :: ChainFrom(g, t, c) ==> |c| <= n)
  }

  lemma {:induction false} UnresolvedHasChain<T(!new)>(g: Graph<T>, k: nat, t: T) returns (c: seq<T>)
    requires Closed(g) && t in Remaining(g, k)
    ensures ChainFrom(g, t, c) && |c| == k + 1
  {
    if k == 0 {
      c := [t];
    } else {
      var before := Remaining(g, k - 1);
      assert t in before && t !in Ready(g, before);
      var d :| d in g[t] && d in before;
      var rest := UnresolvedHasChain(g, k - 1, d);
      c := [t] + rest;
      forall i | 0 <= i < |c| - 1 ensures c[i + 1] in g[c[i]] {
        if i > 0 { assert rest[i - 1 + 1] in g[rest[i - 1]]; }
      }
    }
  }

  lemma {:induction false} ResolvedHasNoLongChain<T(!new)>(g: Graph<T>, k: nat, t: T, c: seq<T>)
    requires t in g && t !in Remaining(g, k) && ChainFrom(g, t, c)
    ensures |c| <= k
  {
    if k > 0 && |c| > 1 {
      var before := Remaining(g, k - 1);
      if t !in before {
        ResolvedHasNoLongChain(g, k - 1, t, c);
      } else {
        assert c[0 + 1] in g[c[0]];
        SubChain(g, c, 1, |c| - 1);
        ResolvedHasNoLongChain(g, k - 1, c[1], c[1..|c| - 1 + 1]);
      }
    }
  }

  /** A tool is in wave `k` exactly when its longest dependency chain has `k + 1` tools. */
  lemma WaveIsDepth<T(!new)>(g: Graph<T>, k: nat, t: T)
    requires Closed(g) && t in g
    ensures t in Wave(g, k) <==> LongestChain(g, t, k + 1)
  {
    assert Remaining(g, k + 1) == Remaining(g, k) - Wave(g, k);
    if t in Remaining(g, k) {
      var c := UnresolvedHasChain(g, k, t);
      if t in Remaining(g, k + 1) {
        var longer := UnresolvedHasChain(g, k + 1, t);
      } else {
        forall d | ChainFrom(g, t, d) ensures |d| <= k + 1 {
          ResolvedHasNoLongChain(g, k + 1, t, d);
        }
      }
    } else {
      forall d | ChainFrom(g, t, d) ensures |d| <= k {
        ResolvedHasNoLongChain(g, k, t, d);
      }
    }
  }

  /** No schedule that respects the dependencies can run a tool earlier than its wave. */
  lemma WavesAreEarliest<T(!new)>(g: Graph<T>, schedule: map<T, nat>, k: nat, t: T)
    requires Closed(g) && Ranks(g, schedule) && t in Wave(g, k)
    ensures k <= schedule[t]
  {
    var c := UnresolvedHasChain(g, k, t);
    RankFallsAlong(g, schedule, c);
  }

  /** What is left when no tool is ready is exactly what lies on or depends on a cycle. */
  lemma LeftoverNeedsCycle<T(!new)>(g: Graph<T>, t: T)
    requires Closed(g) && t in g
    ensures t in Remaining(g, Height(g, 0)) <==> NeedsCycle(g, t)
  {
    hide NeedsCycle, Remaining, Wave;
    var h := Height(g, 0);
    if t in Remaining(g, h) {
      LeftoverIsStuck(g, h);
      StuckNeedsCycle(g, Remaining(g, h), t);
    }
    if NeedsCycle(g, t) {
      NeverResolved(g, t, h);
    }
  }

  lemma LeftoverIsStuck<T(!new)>(g: Graph<T>, h: nat)
    requires Closed(g) && Wave(g, h) == {}
    ensures Stuck(g, Remaining(g, h))
  {
    hide Remaining;
    var left := Remaining(g, h);
    forall s | s in left ensures g[s] * left != {} {
      assert s !in Wave(g, h);
      var d :| d in g[s] && d in left;
      assert d in g[s] * left;
    }
  }

  lemma NeverResolved<T(!new)>(g: Graph<T>, t: T, k: nat)
    requires t in g && NeedsCycle(g, t)
    ensures t in Remaining(g, k)
  {
    hide Remaining;
    var u :| Reaches(g, t, u) && OnCycle(g, u);
    var to :| IsChain(g, to) && to[0] == t && to[|to| - 1] == u;
    var around := Unrolled(g, u, k);
    var c := Joined(g, to, around);
    if t !in Remaining(g, k) {
      ResolvedHasNoLongChain(g, k, t, c);
    }
  }

  /** Something is left exactly when there is a cycle, so hard mode refuses exactly the cyclic graphs. */
  lemma HardRefusesCycles(g: Graph<string>)
    requires Closed(g)
    ensures Layered(g, Hard).Err? <==> Cyclic(g)
  {
    var left := Remaining(g, Height(g, 0));
    if left != {} {
      var t :| t in left;
      LeftoverNeedsCycle(g, t);
    }
    if Cyclic(g) {
      var t :| OnCycle(g, t);
      var c :| IsChain(g, c) && |c| >= 2 && c[0] == t && c[|c| - 1] == t;
      assert Reaches(g, t, t) by {
        SubChain(g, c, 0, 0);
        var single := c[0..0 + 1];
        assert single[0] == t && single[|single| - 1] == t;
      }
      LeftoverNeedsCycle(g, t);
    }
  }

  lemma {:induction false} WavesStayApart<T>(g: Graph<T>, i: nat, j: nat)
    requires i < j
    ensures Remaining(g, j) <= Remaining(g, i) - Wave(g, i)
  {
    assert Remaining(g, j) == Remaining(g, j - 1) - Wave(g, j - 1);
    if i + 1 < j {
      WavesStayApart(g, i, j - 1);
    }
  }

  lemma {:induction false} WavesCover<T>(g: Graph<T>, n: nat, t: T)
    requires t in g
    ensures t in Remaining(g, n) || exists k :: 0 <= k < n && t in Wave(g, k)
  {
    if n > 0 {
      WavesCover(g, n - 1, t);
      assert Remaining(g, n) == Remaining(g, n - 1) - Wave(g, n - 1);
    }
  }

  lemma {:induction false} ProperWaveAt(g: Graph<string>, n: nat, k: nat)
    requires k < n
    ensures ProperWaves(g, n)[k] == Sorted(Wave(g, k))
  {
    hide Sorted, Wave;
    if k < n - 1 {
      ProperWaveAt(g, n - 1, k);
    }
  }

  /** Every tool is scheduled in exactly one wave, and nothing else is. */
  lemma WavesPartition(g: Graph<string>, mode: Mode, t: string)
    requires Layered(g, mode).Ok?
    ensures var waves := Layered(g, mode).value.waves;
      && (t in g <==> exists k :: 0 <= k < |waves| && t in waves[k])
      && (forall i, j :: 0 <= i < j < |waves| && t in waves[i] ==> t !in waves[j])
      && (forall k :: 0 <= k < |waves| ==> waves[k] != [])
  {
    hide Layer, Sorted, Layered;
    var waves := Layered(g, mode).value.waves;
    forall k: nat | k < |waves|
      ensures waves[k] == Sorted(Layer(g, k)) && Layer(g, k) != {} && Layer(g, k) <= g.Keys
    {
      WaveIsLayer(g, mode, k);
    }
    forall i: nat, j: nat | i < j < |waves| ensures Layer(g, i) !! Layer(g, j) {
      LayersStayApart(g, mode, i, j);
    }
    if t in g {
      var k := LayerOf(g, mode, t);
      assert t in waves[k];
    }
  }

  /** The proper waves, and after them what is left. */
  function Layer(g: Graph<string>, k: nat): set<string> {
    if k < Height(g, 0) then Wave(g, k) else Remaining(g, Height(g, 0))
  }

  lemma WaveIsLayer(g: Graph<string>, mode: Mode, k: nat)
    requires Layered(g, mode).Ok? && k < |Layered(g, mode).value.waves|
    ensures Layered(g, mode).value.waves[k] == Sorted(Layer(g, k)) && Layer(g, k) != {} && Layer(g, k) <= g.Keys
  {
    hide Wave, Remaining, Sorted, ProperWaves;
    if k < Height(g, 0) {
      ProperWaveAt(g, Height(g, 0), k);
    }
  }

  lemma LayersStayApart(g: Graph<string>, mode: Mode, i: nat, j: nat)
    requires Layered(g, mode).Ok? && i < j < |Layered(g, mode).value.waves|
    ensures Layer(g, i) !! Layer(g, j)
  {
    hide Wave, Remaining, Sorted, ProperWaves;
    WavesStayApart(g, i, j);
  }

  lemma LayerOf(g: Graph<string>, mode: Mode, t: string) returns (k: nat)
    requires Layered(g, mode).Ok? && t in g
    ensures k < |Layered(g, mode).value.waves| && t in Layer(g, k)
  {
    hide Wave, Remaining, Sorted, ProperWaves;
    var h := Height(g, 0);
    WavesCover(g, h, t);
    if t in Remaining(g, h) {
      k := h;
    } else {
      k :| 0 <= k < h && t in Wave(g, k);
    }
  }

  /** The last wave of an advisory plan for a cyclic graph holds exactly the tools that need a cycle. */
  lemma LastAdvisoryWave(g: Graph<string>, t: string)
    requires Closed(g) && Cyclic(g)
    ensures Layered(g, Advisory).Ok?
    ensures var waves := Layered(g, Advisory).value.waves;
      waves != [] && (t in waves[|waves| - 1] <==> t in g && NeedsCycle(g, t))
  {
    hide Height, Sorted, ProperWaves, NeedsCycle, Cyclic, Remaining, Wave, Ready;
    HardRefusesCycles(g);
    if t in g {
      LeftoverNeedsCycle(g, t);
    }
  }

  // ----- From the entries to the plan -----

  /** The entry that counts for an id: the last one whose id strips to it. */
  predicate EntryOf(tools: seq<Entry>, i: nat, t: string) {
    i < |tools| && Strip(tools[i].toolId) == t && forall j :: i < j < |tools| ==> Strip(tools[j].toolId) != t
  }

  predicate IsTool(tools: seq<Entry>, t: string) {
    exists i :: 0 <= i < |tools| && Strip(tools[i].toolId) == t
  }

  /** The tool names `d` among its dependencies, white space apart. */
  predicate NamesDependency(deps: seq<string>, d: string) {
    d != "" && exists k :: 0 <= k < |deps| && Strip(deps[k]) == d
  }

  ghost predicate DependsOn(tools: seq<Entry>, t: string, d: string) {
    exists i: nat :: EntryOf(tools, i, t) && NamesDependency(tools[i].deps, d)
  }

  /** The tools and, between them, the dependencies that the entries name. */
  ghost predicate Depicts(tools: seq<Entry>, g: Graph<string>) {
    && (forall t :: t in g <==> IsTool(tools, t))
    && (forall t, d :: t in g ==> (d in g[t] <==> DependsOn(tools, t, d) && IsTool(tools, d)))
  }

  lemma StrippedAreNamed(deps: seq<string>)
    ensures forall d :: d in StrippedDeps(deps) <==> NamesDependency(deps, d)
  {
    hide Strip;
    forall d | NamesDependency(deps, d) ensures d in StrippedDeps(deps) {
      var k :| 0 <= k < |deps| && Strip(deps[k]) == d;
      assert deps[k] in deps;
    }
  }

  lemma EntriesOfOneMore(front: seq<Entry>, last: Entry, i: nat, t: string)
    ensures EntryOf(front + [last], i, t)
      <==> if t == Strip(last.toolId) then i == |front| else EntryOf(front, i, t)
  {
    hide Strip;
    var tools := front + [last];
    assert tools[|front|] == last && forall j :: 0 <= j < |front| ==> tools[j] == front[j];
  }

  lemma DependsOnOneMore(front: seq<Entry>, last: Entry, t: string, d: string)
    ensures DependsOn(front + [last], t, d)
      <==> if t == Strip(last.toolId) then NamesDependency(last.deps, d) else DependsOn(front, t, d)
  {
    hide Strip, NamesDependency, EntryOf;
    var tools := front + [last];
    assert tools[|front|] == last && forall j :: 0 <= j < |front| ==> tools[j] == front[j];
    forall i: nat
      ensures EntryOf(tools, i, t) <==> if t == Strip(last.toolId) then i == |front| else EntryOf(front, i, t)
    {
      EntriesOfOneMore(front, last, i, t);
    }
    EntriesAreListed(front, t);
  }

  lemma EntriesAreListed(tools: seq<Entry>, t: string)
    ensures forall i: nat :: EntryOf(tools, i, t) ==> i < |tools|
  {}

  /** The mapping holds the tools and every dependency they name, unless an id is blank. */
  lemma {:induction false} NormalizedIsExact(tools: seq<Entry>)
    ensures Normalized(tools).Some? <==> forall i :: 0 <= i < |tools| ==> Strip(tools[i].toolId) != ""
    ensures Normalized(tools).Some? ==>
      var g := Normalized(tools).value;
      && (forall t :: t in g <==> IsTool(tools, t))
      && (forall t, d :: t in g ==> (d in g[t] <==> DependsOn(tools, t, d)))
  {
    hide Strip, StrippedDeps, NamesDependency, DependsOn;
    if tools != [] {
      var front, last := tools[..|tools| - 1], tools[|tools| - 1];
      NormalizedIsExact(front);
      assert tools == front + [last];
      StrippedAreNamed(last.deps);
      forall t, d ensures DependsOn(tools, t, d)
        <==> if t == Strip(last.toolId) then NamesDependency(last.deps, d) else DependsOn(front, t, d)
      {
        DependsOnOneMore(front, last, t, d);
      }
      forall t ensures IsTool(tools, t) <==> IsTool(front, t) || t == Strip(last.toolId) {
        ToolsOfOneMore(front, last, t);
      }
    }
  }

  lemma ToolsOfOneMore(front: seq<Entry>, last: Entry, t: string)
    ensures IsTool(front + [last], t) <==> IsTool(front, t) || t == Strip(last.toolId)
  {
    hide Strip;
    var tools := front + [last];
    assert tools[|front|] == last && forall j :: 0 <= j < |front| ==> tools[j] == front[j];
  }

  /** A dependency that names no tool. */
  ghost predicate IsUnknown(tools: seq<Entry>, d: string) {
    !IsTool(tools, d) && exists t :: DependsOn(tools, t, d)
  }

  lemma DependentsAreTools(tools: seq<Entry>, t: string, d: string)
    ensures DependsOn(tools, t, d) ==> IsTool(tools, t)
  {
    hide Strip, NamesDependency;
  }

  /** How a plan is refused before anything is layered. */
  lemma PlanRefusalIsExact(tools: seq<Entry>, mode: Mode)
    ensures var r := Planned(tools, mode);
      && (r == Err(EmptyToolId) <==> exists i :: 0 <= i < |tools| && Strip(tools[i].toolId) == "")
      && (r.Err? && r.error.UnknownDependencies? <==>
            && mode.Hard? && (exists d :: IsUnknown(tools, d))
            && forall i :: 0 <= i < |tools| ==> Strip(tools[i].toolId) != "")
      && (r.Err? && r.error.UnknownDependencies? ==>
            InOrder(r.error.deps) && forall d :: d in r.error.deps <==> IsUnknown(tools, d))
  {
    hide Strip, Layered, Known, Sorted, DependsOn, IsTool, StrLe;
    NormalizedIsExact(tools);
    if Normalized(tools).Some? {
      MissingIsUnknown(tools);
      LayeredIsNotEmptyId(Known(Normalized(tools).value), mode);
    }
  }

  lemma LayeredIsNotEmptyId(g: Graph<string>, mode: Mode)
    ensures Layered(g, mode).Err? ==> Layered(g, mode) == Err(CyclicDependencies)
  {
    hide Height, Sorted;
  }

  lemma MissingIsUnknown(tools: seq<Entry>)
    requires Normalized(tools).Some?
    ensures forall d :: d in Missing(Normalized(tools).value) <==> IsUnknown(tools, d)
  {
    hide Normalized, DependsOn, IsTool;
    NormalizedIsExact(tools);
    var g := Normalized(tools).value;
    forall d ensures d in Missing(g) <==> IsUnknown(tools, d) {
      if IsUnknown(tools, d) {
        var t :| DependsOn(tools, t, d);
        DependentsAreTools(tools, t, d);
        assert t in g && d in g[t];
      }
    }
  }

  /**
    What the plan is, from the entries as they were written: a tool is in the wave of its longest chain of
    declared dependencies; hard mode refuses cycles; and in advisory mode one last wave holds the
    tools that need one. Each wave is sorted, and the counts are the numbers of tools and of waves.
  */
  lemma PlanIsExact(tools: seq<Entry>, mode: Mode) returns (g: Graph<string>)
    requires var r := Planned(tools, mode); r.Ok? || r.error.CyclicDependencies?
    ensures Depicts(tools, g)
    ensures Planned(tools, mode).Err? <==> mode.Hard? && Cyclic(g)
    ensures Planned(tools, mode).Ok? ==>
      var plan := Planned(tools, mode).value;
      && plan.mode == mode && plan.toolCount == |g| && plan.waveCount == |plan.waves|
      && (forall k :: 0 <= k < |plan.waves| ==> InOrder(plan.waves[k]))
      && (forall k: nat, t :: k < |plan.waves| ==>
            (t in plan.waves[k] <==>
               t in g && (LongestChain(g, t, k + 1) || (k + 1 == |plan.waves| && NeedsCycle(g, t)))))
  {
    hide Normalized, Layered, Known, Missing, Sorted, LongestChain, NeedsCycle, Cyclic, Depicts, Closed, InOrder;
    g := Known(Normalized(tools).value);
    KnownDepicts(tools);
    HardRefusesCycles(g);
    OnlyHardRefuses(g, mode);
    if Planned(tools, mode).Ok? {
      LayeredCounts(g, mode);
      var plan := Planned(tools, mode).value;
      forall k: nat, t | k < |plan.waves|
        ensures InOrder(plan.waves[k])
        ensures t in plan.waves[k] <==>
          t in g && (LongestChain(g, t, k + 1) || (k + 1 == |plan.waves| && NeedsCycle(g, t)))
      {
        WaveIsExact(g, mode, k, t);
      }
    }
  }

  lemma WaveIsExact(g: Graph<string>, mode: Mode, k: nat, t: string)
    requires Closed(g) && Layered(g, mode).Ok? && k < |Layered(g, mode).value.waves|
    ensures var waves := Layered(g, mode).value.waves;
      && InOrder(waves[k])
      && (t in waves[k] <==> t in g && (LongestChain(g, t, k + 1) || (k + 1 == |waves| && NeedsCycle(g, t))))
  {
    hide Closed, Layered, Layer, Sorted, LongestChain, NeedsCycle, InOrder;
    WaveIsLayer(g, mode, k);
    SortedIsInOrder(Layer(g, k));
    LayerMeans(g, mode, k, t);
  }

  lemma KnownDepicts(tools: seq<Entry>)
    requires Normalized(tools).Some?
    ensures Depicts(tools, Known(Normalized(tools).value)) && Closed(Known(Normalized(tools).value))
  {
    hide Normalized, DependsOn, IsTool;
    NormalizedIsExact(tools);
  }

  lemma OnlyHardRefuses(g: Graph<string>, mode: Mode)
    ensures Layered(g, mode).Err? <==> mode.Hard? && Layered(g, Hard).Err?
  {
    hide Height, Sorted, Remaining;
  }

  lemma LayeredCounts(g: Graph<string>, mode: Mode)
    requires Layered(g, mode).Ok?
    ensures var plan := Layered(g, mode).value;
      && plan.mode == mode && plan.toolCount == |g| && plan.waveCount == |plan.waves|
      && |plan.waves| == Height(g, 0) + (if Remaining(g, Height(g, 0)) == {} then 0 else 1)
  {
    hide Height, Sorted, Remaining;
  }

  lemma LayerMeans(g: Graph<string>, mode: Mode, k: nat, t: string)
    requires Closed(g) && Layered(g, mode).Ok? && k < |Layered(g, mode).value.waves|
    ensures t in Layer(g, k) <==>
      t in g && (LongestChain(g, t, k + 1) || (k + 1 == |Layered(g, mode).value.waves| && NeedsCycle(g, t)))
  {
    hide Height, Layered, Remaining, Wave, Ready, LongestChain, NeedsCycle;
    LayeredCounts(g, mode);
    var h := Height(g, 0);
    if t in g {
      WaveIsDepth(g, k, t);
      LeftoverNeedsCycle(g, t);
      LeftIsNoWave(g, h, t);
    }
  }

  /** What is left over is in none of the waves. */
  lemma LeftIsNoWave(g: Graph<string>, h: nat, t: string)
    ensures t in Remaining(g, h) ==> forall k: nat :: k < h ==> t !in Wave(g, k)
  {
    hide Remaining, Wave;
    forall k: nat | k < h && t in Remaining(g, h) ensures t !in Wave(g, k) {
      WavesStayApart(g, k, h);
    }
  }
}
