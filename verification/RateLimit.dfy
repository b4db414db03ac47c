/** The per-tool sliding-window rate limit, judged against the whole history of admitted calls. */
module RateLimit {

  datatype Limits = Limits(maxCalls: nat, window: real)

  predicate Proper(l: Limits) {
    l.maxCalls >= 1 && l.window > 0.0
  }

  predicate Rising(ts: seq<real>) {
    forall i, j :: 0 <= i <= j < |ts| ==> ts[i] <= ts[j]
  }

  /** How many of the instants lie in the closed interval from `a` to `b`. */
  function Count(ts: seq<real>, a: real, b: real): (n: nat)
    ensures n <= |ts|
  {
    if ts == [] then 0 else
      Count(ts[..|ts| - 1], a, b) + if a <= ts[|ts| - 1] <= b then 1 else 0
  }

  /** The admitted calls of one tool when calls are made at the given instants. */
  function Admitted(calls: seq<real>, l: Limits): seq<real> {
    if calls == [] then [] else
      var before, now := Admitted(calls[..|calls| - 1], l), calls[|calls| - 1];
      if Count(before, now - l.window, now) < l.maxCalls then before + [now] else before
  }

  /** Between an admitted call and the `maxCalls`-th one before it lies more than a window. */
  predicate Spaced(ts: seq<real>, l: Limits) {
    forall i :: l.maxCalls <= i < |ts| ==> ts[i] - ts[i - l.maxCalls] > l.window
  }

  lemma {:induction false} CountSkips(ts: seq<real>, a: real, b: real, k: nat)
    requires k <= |ts| && forall i :: 0 <= i < k ==> ts[i] < a
    ensures Count(ts, a, b) <= |ts| - k
    ensures (forall i :: k <= i < |ts| ==> a <= ts[i] <= b) ==> Count(ts, a, b) == |ts| - k
    decreases |ts|
  {
    if ts != [] {
      CountSkips(ts[..|ts| - 1], a, b, if k == |ts| then k - 1 else k);
    }
  }

  lemma {:induction false} AdmittedIsSpaced(calls: seq<real>, l: Limits)
    requires Proper(l) && Rising(calls)
    ensures Rising(Admitted(calls, l)) && Spaced(Admitted(calls, l), l)
    ensures forall t :: t in Admitted(calls, l) ==> t in calls
  {
    hide Rising, Spaced;
    if calls == [] {
      NothingAdmitted(l);
    } else {
      var front, now := calls[..|calls| - 1], calls[|calls| - 1];
      FrontRises(calls);
      AdmittedIsSpaced(front, l);
      assert forall t :: t in front ==> t in calls;
      var before := Admitted(front, l);
      if Count(before, now - l.window, now) < l.maxCalls {
        StaysSpaced(before, now, l);
      }
    }
  }

  lemma NothingAdmitted(l: Limits)
    ensures Rising([]) && Spaced([], l)
  {}

  lemma FrontRises(calls: seq<real>)
    ensures Rising(calls) && calls != [] ==> Rising(calls[..|calls| - 1])
    ensures Rising(calls) && calls != [] ==> (forall t :: t in calls ==> t <= calls[|calls| - 1])
  {}

  lemma StaysSpaced(ts: seq<real>, now: real, l: Limits)
    requires Proper(l) && Rising(ts) && Spaced(ts, l) && forall t :: t in ts ==> t <= now
    requires Count(ts, now - l.window, now) < l.maxCalls
    ensures Rising(ts + [now]) && Spaced(ts + [now], l)
  {
    hide Count;
    assert forall i :: 0 <= i < |ts| ==> ts[i] in ts;
    if |ts| >= l.maxCalls {
      LastFallsOut(ts, now, l);
    }
  }

  /** If fewer than `maxCalls` are in the window ending now, the `maxCalls`-th last one is not. */
  lemma LastFallsOut(ts: seq<real>, now: real, l: Limits)
    requires Rising(ts) && |ts| >= l.maxCalls >= 1 && forall t :: t in ts ==> t <= now
    requires Count(ts, now - l.window, now) < l.maxCalls
    ensures now - ts[|ts| - l.maxCalls] > l.window
  {
    var k := |ts| - l.maxCalls;
    if ts[k] >= now - l.window {
      assert forall i :: 0 <= i < |ts| ==> ts[i] in ts;
      CountSuffix(ts, now - l.window, now, k);
    }
  }

  lemma {:induction false} CountSuffix(ts: seq<real>, a: real, b: real, k: nat)
    requires k <= |ts| && forall i :: k <= i < |ts| ==> a <= ts[i] <= b
    ensures Count(ts, a, b) >= |ts| - k
    decreases |ts|
  {
    if k < |ts| {
      CountSuffix(ts[..|ts| - 1], a, b, k);
    }
  }

  /** No closed window of the configured length ever holds more than `maxCalls` admitted calls. */
  lemma {:induction false} WindowIsCapped(ts: seq<real>, l: Limits, a: real)
    requires Proper(l) && Rising(ts) && Spaced(ts, l)
    ensures Count(ts, a, a + l.window) <= l.maxCalls
    decreases |ts|
  {
    if ts != [] {
      var front, last := ts[..|ts| - 1], ts[|ts| - 1];
      if last > a + l.window || |ts| <= l.maxCalls {
        WindowIsCapped(front, l, a);
      } else {
        assert last - ts[|ts| - 1 - l.maxCalls] > l.window;
        CountSkips(ts, a, a + l.window, |ts| - l.maxCalls);
      }
    }
  }

  /** The limit over every history of calls: bounded in every window, and refused only when full. */
  lemma LimitIsKept(calls: seq<real>, l: Limits, a: real)
    requires Proper(l) && Rising(calls)
    ensures Count(Admitted(calls, l), a, a + l.window) <= l.maxCalls
  {
    AdmittedIsSpaced(calls, l);
    WindowIsCapped(Admitted(calls, l), l, a);
  }

  lemma RefusedOnlyWhenFull(calls: seq<real>, now: real, l: Limits)
    requires Proper(l) && Rising(calls) && forall t :: t in calls ==> t <= now
    ensures var before, after := Admitted(calls, l), Admitted(calls + [now], l);
      && (after == before + [now] || after == before)
      && (after == before <==> Count(before, now - l.window, now) == l.maxCalls)
  {
    hide Rising, Spaced, Count;
    assert (calls + [now])[..|calls|] == calls;
    LimitIsKept(calls, l, now - l.window);
    assert |Admitted(calls, l) + [now]| != |Admitted(calls, l)|;
  }

  /** The oldest of the `maxCalls` calls that fill the window. */
  lemma OldestInFullWindow(ts: seq<real>, now: real, l: Limits)
    requires Proper(l) && Rising(ts) && Spaced(ts, l) && forall t :: t in ts ==> t <= now
    requires Count(ts, now - l.window, now) == l.maxCalls
    ensures |ts| >= l.maxCalls && now - l.window <= ts[|ts| - l.maxCalls]
  {
    hide Count;
    var k := |ts| - l.maxCalls;
    if ts[k] < now - l.window {
      CountSkips(ts, now - l.window, now, k + 1);
    }
  }

  /** A refused call is refused again until more than the advised wait has passed, and then admitted. */
  lemma RetryAfterIsTight(ts: seq<real>, now: real, later: real, l: Limits)
    requires Proper(l) && Rising(ts) && Spaced(ts, l) && forall t :: t in ts ==> t <= now
    requires Count(ts, now - l.window, now) == l.maxCalls && now <= later
    ensures |ts| >= l.maxCalls
    ensures var retryAfter := l.window - (now - ts[|ts| - l.maxCalls]);
      retryAfter >= 0.0 && (Count(ts, later - l.window, later) < l.maxCalls <==> later > now + retryAfter)
  {
    hide Count;
    OldestInFullWindow(ts, now, l);
    assert forall i :: 0 <= i < |ts| ==> ts[i] in ts;
    var k := |ts| - l.maxCalls;
    if later > l.window + ts[k] {
      CountSkips(ts, later - l.window, later, k + 1);
    } else {
      CountSuffix(ts, later - l.window, later, k);
    }
  }

  // ----- The runner -----

  datatype Outcome =
    | UnknownTool
    | RateLimitExceeded(limit: nat, window: real, retryAfter: real)
    | Executed

  /** Instants of a bucket, the first `dropped` of all admitted ones having been evicted before `cutoff`. */
  ghost predicate IsBucket(bucket: seq<real>, admitted: seq<real>, dropped: nat, cutoff: real) {
    && dropped <= |admitted|
    && bucket == admitted[dropped..]
    && forall i :: 0 <= i < dropped ==> admitted[i] < cutoff
  }

  lemma BucketCounts(bucket: seq<real>, admitted: seq<real>, dropped: nat, l: Limits, now: real)
    requires IsBucket(bucket, admitted, dropped, now - l.window) && Rising(admitted)
    requires forall t :: t in admitted ==> t <= now
    requires bucket != [] ==> bucket[0] >= now - l.window
    ensures |bucket| == Count(admitted, now - l.window, now)
  {
    hide Count;
    assert forall i :: 0 <= i < |admitted| ==> admitted[i] in admitted;
    CountSkips(admitted, now - l.window, now, dropped);
  }

  lemma CallRecorded(before: seq<real>, now: real, bucket: seq<real>, after: seq<real>, dropped: nat, l: Limits)
    requires Proper(l) && Right(bucket, before, dropped, now, l)
    requires |bucket| == Count(Admitted(before, l), now - l.window, now)
    requires after == if |bucket| >= l.maxCalls then bucket else bucket + [now]
    ensures Right(after, before + [now], dropped, now, l)
  {
    hide Count, Admitted;
    assert forall i :: 0 <= i < |before| ==> before[i] in before;
    RefusedOnlyWhenFull(before, now, l);
    LimitIsKept(before, l, now - l.window);
    assert (before + [now])[..|before|] == before;
    OneMoreCall(before, now, l);
  }

  lemma {:induction false} OneMoreCall(calls: seq<real>, now: real, l: Limits)
    ensures var before := Admitted(calls, l);
      Admitted(calls + [now], l)
        == if Count(before, now - l.window, now) < l.maxCalls then before + [now] else before
  {
    hide Count, Admitted;
    LastCall(calls + [now], l);
    assert (calls + [now])[..|calls|] == calls;
  }

  lemma {:induction false} LastCall(calls: seq<real>, l: Limits)
    requires calls != []
    ensures var before, now := Admitted(calls[..|calls| - 1], l), calls[|calls| - 1];
      Admitted(calls, l) == if Count(before, now - l.window, now) < l.maxCalls then before + [now] else before
  {}

  /** A tool's bucket, the instants of all its calls, and how many admitted ones were evicted by now. */
  ghost predicate Right(bucket: seq<real>, calls: seq<real>, dropped: nat, clock: real, l: Limits) {
    && Rising(calls) && (forall t :: t in calls ==> t <= clock)
    && IsBucket(bucket, Admitted(calls, l), dropped, clock - l.window)
  }

  lemma RightLater(bucket: seq<real>, calls: seq<real>, dropped: nat, clock: real, later: real, l: Limits)
    ensures Right(bucket, calls, dropped, clock, l) && clock <= later ==> Right(bucket, calls, dropped, later, l)
  {
    hide Admitted;
  }

  lemma WhatRightMeans(bucket: seq<real>, calls: seq<real>, dropped: nat, now: real, l: Limits)
    requires Proper(l) && Right(bucket, calls, dropped, now, l)
    ensures var admitted := Admitted(calls, l);
      && Rising(admitted) && Spaced(admitted, l) && (forall t :: t in admitted ==> t <= now)
      && Count(admitted, now - l.window, now) <= l.maxCalls
  {
    hide Count, Admitted;
    AdmittedIsSpaced(calls, l);
    LimitIsKept(calls, l, now - l.window);
  }

  lemma EvictOne(bucket: seq<real>, calls: seq<real>, dropped: nat, now: real, l: Limits)
    ensures Right(bucket, calls, dropped, now, l) && bucket != [] && bucket[0] < now - l.window ==>
      Right(bucket[1..], calls, dropped + 1, now, l)
  {
    hide Admitted;
  }

  lemma Evicted(bucket: seq<real>, calls: seq<real>, dropped: nat, now: real, l: Limits)
    requires Proper(l) && Right(bucket, calls, dropped, now, l) && (bucket != [] ==> bucket[0] >= now - l.window)
    ensures var admitted := Admitted(calls, l);
      && |bucket| == Count(admitted, now - l.window, now)
      && (bucket != [] ==> |bucket| <= |admitted| && bucket[0] == admitted[|admitted| - |bucket|])
  {
    hide Admitted, Count;
    AdmittedIsSpaced(calls, l);
    BucketCounts(bucket, Admitted(calls, l), dropped, l, now);
  }

  class RateLimitedToolRunner {
    const tools: set<string>
    const limits: Limits
    var hits: map<string, seq<real>>
    ghost var calls: map<string, seq<real>>
    ghost var dropped: map<string, nat>
    ghost var clock: real

    function Bucket(tool: string): seq<real>
      reads this
    {
      if tool in hits then hits[tool] else []
    }

    /** All instants at which the tool was called so far. */
    ghost function Calls(tool: string): seq<real>
      reads this
    {
      if tool in calls then calls[tool] else []
    }

    ghost function Load(tool: string, now: real): nat
      reads this
    {
      Count(Admitted(Calls(tool), limits), now - limits.window, now)
    }

    ghost predicate BucketIsRight(tool: string)
      reads this
    {
      Right(Bucket(tool), Calls(tool), Dropped(tool), clock, limits)
    }

    ghost function Dropped(tool: string): nat
      reads this
    {
      if tool in dropped then dropped[tool] else 0
    }

    ghost predicate Valid()
      reads this
    {
      Proper(limits) && forall tool :: BucketIsRight(tool)
    }

    constructor (tools: set<string>, limits: Limits, start: real)
      requires Proper(limits)
      ensures Valid() && this.tools == tools && this.limits == limits && clock == start
      ensures forall tool :: Calls(tool) == []
    {
      this.tools, this.limits := tools, limits;
      hits, calls, dropped, clock := map[], map[], map[], start;
    }

    /** The eviction loop that `execute` and `remaining` share. */
    method Evict(tool: string, now: real) returns (bucket: seq<real>)
      requires Valid() && clock <= now
      modifies this
      ensures Valid() && clock == now && calls == old(calls) && bucket == Bucket(tool)
      ensures forall other :: other != tool ==> Bucket(other) == old(Bucket(other))
      ensures |bucket| == Load(tool, now)
      ensures bucket != [] ==>
        var admitted := Admitted(Calls(tool), limits); bucket[0] == admitted[|admitted| - |bucket|]
    {
      hide Count, Admitted, Right, Rising;
      assert BucketIsRight(tool);
      RightLater(Bucket(tool), Calls(tool), Dropped(tool), clock, now, limits);
      bucket := Bucket(tool);
      var cutoff := now - limits.window;
      ghost var admitted := Admitted(Calls(tool), limits);
      ghost var gone := Dropped(tool);
      while bucket != [] && bucket[0] < cutoff
        invariant unchanged(this) && Right(bucket, Calls(tool), gone, now, limits)
      {
        EvictOne(bucket, Calls(tool), gone, now, limits);
        bucket := bucket[1..];
        gone := gone + 1;
      }
      Evicted(bucket, Calls(tool), gone, now, limits);
      hits := hits[tool := bucket];
      dropped := dropped[tool := gone];
      clock := now;
      forall other ensures BucketIsRight(other) {
        if other != tool {
          assert old(BucketIsRight(other));
          RightLater(Bucket(other), Calls(other), Dropped(other), old(clock), now, limits);
        }
      }
    }

    /** `execute`: the clock is read once, and never runs backwards. */
    method Execute(tool: string, now: real) returns (outcome: Outcome)
      requires Valid() && clock <= now
      modifies this
      ensures Valid()
      ensures tool !in tools ==>
        outcome == UnknownTool && calls == old(calls) && hits == old(hits) && clock == old(clock)
      ensures tool in tools ==> clock == now && calls == old(calls)[tool := old(Calls(tool)) + [now]]
      ensures tool in tools ==> (outcome == Executed <==> old(Load(tool, now)) < limits.maxCalls)
      ensures tool in tools && outcome != Executed ==>
        var admitted := old(Admitted(Calls(tool), limits));
        && old(Load(tool, now)) == limits.maxCalls <= |admitted|
        && outcome == RateLimitExceeded(limits.maxCalls, limits.window,
             limits.window - (now - admitted[|admitted| - limits.maxCalls]))
      ensures forall other :: other != tool ==> Bucket(other) == old(Bucket(other))
    {
      hide Count, Admitted, Right, Rising;
      if tool !in tools {
        return UnknownTool;
      }
      ghost var before := Calls(tool);
      var bucket := Evict(tool, now);
      label evicted: assert BucketIsRight(tool);
      WhatRightMeans(bucket, before, Dropped(tool), now, limits);
      calls := calls[tool := before + [now]];
      if |bucket| >= limits.maxCalls {
        OldestInFullWindow(Admitted(before, limits), now, limits);
        var wait := limits.window - (now - bucket[0]);
        outcome := RateLimitExceeded(limits.maxCalls, limits.window, if wait > 0.0 then wait else 0.0);
      } else {
        hits := hits[tool := bucket + [now]];
        outcome := Executed;
      }
      CallRecorded(before, now, bucket, Bucket(tool), Dropped(tool), limits);
      forall other ensures BucketIsRight(other) {
        assert other == tool || old@evicted(BucketIsRight(other));
      }
    }

    /** `remaining`: how many calls would be admitted at this instant. */
    method Remaining(tool: string, now: real) returns (n: nat)
      requires Valid() && clock <= now
      modifies this
      ensures Valid() && clock == now && calls == old(calls)
      ensures n + Load(tool, now) == limits.maxCalls
      ensures forall other :: other != tool ==> Bucket(other) == old(Bucket(other))
    {
      hide Count, Admitted, Right, Rising;
      var bucket := Evict(tool, now);
      assert BucketIsRight(tool);
      WhatRightMeans(bucket, Calls(tool), Dropped(tool), now, limits);
      n := if limits.maxCalls > |bucket| then limits.maxCalls - |bucket| else 0;
    }
  }
}
