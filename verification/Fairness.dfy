/** Turn fairness between bots: who is recommended, who is admitted, and how uneven it can get. */
module Fairness {
  import opened Arithmetic
  import opened Text

  datatype Mode = Advisory | Hard

  /** Turns taken by each bot of one session. */
  type Turns = map<string, nat>

  /** The bots that may take a turn; there is always one. */
  type Bots = bots: seq<string> | bots != [] witness [""]

  function Count(turns: Turns, bot: string): nat {
    if bot in turns then turns[bot] else 0
  }

  function Least(turns: Turns, bots: Bots): (n: nat)
    ensures forall b :: b in bots ==> n <= Count(turns, b)
    ensures exists b :: b in bots && n == Count(turns, b)
  {
    var last := Count(turns, bots[|bots| - 1]);
    assert bots == bots[..|bots| - 1] + [bots[|bots| - 1]];
    if |bots| == 1 then last else
      var n := Least(turns, bots[..|bots| - 1]);
      if last < n then last else n
  }

  function Most(turns: Turns, bots: Bots): (n: nat)
    ensures forall b :: b in bots ==> Count(turns, b) <= n
    ensures exists b :: b in bots && n == Count(turns, b)
  {
    var last := Count(turns, bots[|bots| - 1]);
    assert bots == bots[..|bots| - 1] + [bots[|bots| - 1]];
    if |bots| == 1 then last else
      var n := Most(turns, bots[..|bots| - 1]);
      if last > n then last else n
  }

  function Skew(turns: Turns, bots: Bots): nat
  {
    Most(turns, bots) - Least(turns, bots)
  }

  /** `_would_allow`. */
  predicate WouldAllow(turns: Turns, bot: string, bots: Bots, maxSkew: nat)
  {
    Count(turns, bot) <= Least(turns, bots) + maxSkew
  }

  /** Whether `a` sorts before `b` by turns taken, then by name. */
  predicate Precedes(turns: Turns, a: string, b: string) {
    Count(turns, a) < Count(turns, b) || (Count(turns, a) == Count(turns, b) && StrLe(a, b))
  }

  /** `sorted(eligible, key=(count, bot))[0]`. */
  function Recommended(turns: Turns, bots: Bots): (bot: string)
    ensures bot in bots
  {
    var last := bots[|bots| - 1];
    if |bots| == 1 then last else
      var best := Recommended(turns, bots[..|bots| - 1]);
      if Precedes(turns, best, last) then best else last
  }

  function Taken(turns: Turns, bot: string): Turns {
    turns[bot := Count(turns, bot) + 1]
  }

  // ----- The scheduler -----

  datatype Snapshot = Snapshot(
    sessionId: string, counts: Turns, recommended: string, skew: nat, mode: Mode, allowed: bool)

  datatype Refusal = EmptyId | NoEligibleBot | NotEligible | SkewExceeded

  /** `_require_id` of every element. */
  function Ids(raw: seq<string>): Option<seq<string>> {
    if raw == [] then Some([]) else
      var front, last := Ids(raw[..|raw| - 1]), Strip(raw[|raw| - 1]);
      if front.None? || last == "" then None else Some(front.value + [last])
  }

  /** The ids in the order in which they were given, unless one is blank. */
  lemma {:induction false} IdsAreExact(raw: seq<string>)
    ensures Ids(raw).None? <==> exists i :: 0 <= i < |raw| && Strip(raw[i]) == ""
    ensures Ids(raw).Some? ==>
      |Ids(raw).value| == |raw| && forall i :: 0 <= i < |raw| ==> Ids(raw).value[i] == Strip(raw[i])
  {
    hide Strip;
    if raw != [] {
      var front := raw[..|raw| - 1];
      IdsAreExact(front);
      assert forall i :: 0 <= i < |front| ==> front[i] == raw[i];
    }
  }

  function SnapshotOf(turns: Turns, sid: string, bots: Bots, mode: Mode, maxSkew: nat): Snapshot
  {
    Snapshot(sid, map b | b in bots :: Count(turns, b), Recommended(turns, bots), Skew(turns, bots), mode,
      mode.Advisory? || exists b :: b in bots && WouldAllow(turns, b, bots, maxSkew))
  }

  /**
    What a snapshot tells its reader: the true counts, a bot that comes before every other one, the
    largest difference between two bots, and that the next turn is permitted.
  */
  ghost predicate Describes(s: Snapshot, sid: string, mode: Mode, turns: Turns, bots: seq<string>) {
    && s.sessionId == sid && s.mode == mode
    && (forall b :: b in s.counts <==> b in bots)
    && (forall b :: b in bots ==> b in s.counts && s.counts[b] == Count(turns, b))
    && s.recommended in bots
    && (forall b :: b in bots ==>
          || Count(turns, s.recommended) < Count(turns, b)
          || (Count(turns, s.recommended) == Count(turns, b) && StrLe(s.recommended, b)))
    && (forall a, b :: a in bots && b in bots ==> Count(turns, a) - Count(turns, b) <= s.skew)
    && (exists a, b :: a in bots && b in bots && Count(turns, a) - Count(turns, b) == s.skew)
    && s.allowed
  }

  /** What `record` refuses, in the order in which it looks. */
  function Objection(
      turns: Turns, session: string, bot: string, eligible: seq<string>, mode: Mode, maxSkew: nat)
      : Option<Refusal>
  {
    if Strip(session) == "" || Strip(bot) == "" || Ids(eligible).None? then Some(EmptyId)
    else if Ids(eligible).value == [] then Some(NoEligibleBot)
    else if Strip(bot) !in Ids(eligible).value then Some(NotEligible)
    else if mode.Hard? && !WouldAllow(turns, Strip(bot), Ids(eligible).value, maxSkew) then Some(SkewExceeded)
    else None
  }

  /**
    What is refused, told by the counts alone: first blank ids, then an empty list, then a bot that is not on
    it, and in hard mode a bot that is more than the permitted number of turns ahead of some eligible one.
  */
  lemma ObjectionIsExact(
      turns: Turns, session: string, bot: string, eligible: seq<string>, mode: Mode, maxSkew: nat)
    ensures var objection := Objection(turns, session, bot, eligible, mode, maxSkew);
      var who := Strip(bot);
      var blank := Strip(session) == "" || who == "" || exists i :: 0 <= i < |eligible| && Strip(eligible[i]) == "";
      var listed := exists i :: 0 <= i < |eligible| && Strip(eligible[i]) == who;
      && (objection == Some(EmptyId) <==> blank)
      && (objection == Some(NoEligibleBot) <==> !blank && eligible == [])
      && (objection == Some(NotEligible) <==> !blank && eligible != [] && !listed)
      && (objection == Some(SkewExceeded) <==>
            && !blank && listed && mode.Hard?
            && exists i :: 0 <= i < |eligible| && Count(turns, who) > Count(turns, Strip(eligible[i])) + maxSkew)
  {
    hide Strip, Least, Count, Ids;
    var ids := Ids(eligible);
    IdsAreExact(eligible);
    if ids.Some? && ids.value != [] {
      var bots: Bots := ids.value;
      var least := Least(turns, bots);
      assert forall i :: 0 <= i < |eligible| ==> bots[i] == Strip(eligible[i]) && bots[i] in bots;
      var low := LeastServed(turns, bots);
      var k :| 0 <= k < |bots| && bots[k] == low;
      assert Strip(eligible[k]) == low;
    }
  }

  class BotTurnFairnessScheduler {
    const maxSkew: nat
    const mode: Mode
    var counts: map<string, Turns>

    function Session(session: string): Turns
      reads this
    {
      if Strip(session) in counts then counts[Strip(session)] else map[]
    }

    constructor (maxSkew: nat, mode: Mode)
      ensures this.maxSkew == maxSkew && this.mode == mode && counts == map[]
    {
      this.maxSkew, this.mode, counts := maxSkew, mode, map[];
    }

    method Recommend(session: string, eligible: seq<string>) returns (r: Result<Snapshot, Refusal>)
      ensures Strip(session) == "" || Ids(eligible).None? ==> r == Err(EmptyId)
      ensures Strip(session) != "" && Ids(eligible) == Some([]) ==> r == Err(NoEligibleBot)
      ensures Strip(session) != "" && Ids(eligible).Some? && Ids(eligible).value != [] ==>
        r == Ok(SnapshotOf(Session(session), Strip(session), Ids(eligible).value, mode, maxSkew))
      ensures r.Ok? ==>
        Ids(eligible).Some? && Describes(r.value, Strip(session), mode, Session(session), Ids(eligible).value)
    {
      hide Strip, Ids, SnapshotOf, Describes;
      var sid, bots := Strip(session), Ids(eligible);
      if sid == "" || bots.None? {
        return Err(EmptyId);
      }
      if bots.value == [] {
        return Err(NoEligibleBot);
      }
      SnapshotDescribes(Session(session), sid, bots.value, mode, maxSkew);
      return Ok(SnapshotOf(Session(session), sid, bots.value, mode, maxSkew));
    }

    method Record(session: string, bot: string, eligible: seq<string>) returns (r: Result<Snapshot, Refusal>)
      modifies this
      ensures var objection := old(Objection(Session(session), session, bot, eligible, mode, maxSkew));
        if objection.Some? then r == Err(objection.value) && counts == old(counts)
        else
          && Ids(eligible).Some? && Ids(eligible).value != []
          && counts == old(counts)[Strip(session) := Taken(old(Session(session)), Strip(bot))]
          && r == Ok(SnapshotOf(Session(session), Strip(session), Ids(eligible).value, mode, maxSkew))
          && Describes(r.value, Strip(session), mode, Session(session), Ids(eligible).value)
    {
      hide Strip, Ids, SnapshotOf, WouldAllow, Describes;
      var sid, who, bots := Strip(session), Strip(bot), Ids(eligible);
      if sid == "" || who == "" || bots.None? {
        return Err(EmptyId);
      }
      if bots.value == [] {
        return Err(NoEligibleBot);
      }
      if who !in bots.value {
        return Err(NotEligible);
      }
      var bucket := if sid in counts then counts[sid] else map[];
      if mode.Hard? && !WouldAllow(bucket, who, bots.value, maxSkew) {
        return Err(SkewExceeded);
      }
      counts := counts[sid := bucket[who := Count(bucket, who) + 1]];
      SnapshotDescribes(counts[sid], sid, bots.value, mode, maxSkew);
      return Ok(SnapshotOf(counts[sid], sid, bots.value, mode, maxSkew));
    }

    method Reset(session: string) returns (r: Result<bool, Refusal>)
      modifies this
      ensures Strip(session) == "" ==> r == Err(EmptyId) && counts == old(counts)
      ensures Strip(session) != "" ==>
        && r == Ok(Strip(session) in old(counts)) && counts == old(counts) - {Strip(session)}
        && Session(session) == map[]
    {
      var sid := Strip(session);
      if sid == "" {
        return Err(EmptyId);
      }
      r := Ok(sid in counts);
      counts := counts - {sid};
    }
  }

  lemma LeastServed(turns: Turns, bots: Bots) returns (bot: string)
    ensures bot in bots && Count(turns, bot) == Least(turns, bots)
  {
    hide Least;
    var n := Least(turns, bots);
    bot :| bot in bots && n == Count(turns, bot);
  }

  lemma MostServed(turns: Turns, bots: Bots) returns (bot: string)
    ensures bot in bots && Count(turns, bot) == Most(turns, bots)
  {
    hide Most;
    var n := Most(turns, bots);
    bot :| bot in bots && n == Count(turns, bot);
  }

  // ----- The recommendation -----

  lemma PrecedesIsTransitive(turns: Turns, a: string, b: string, c: string)
    requires Precedes(turns, a, b) && Precedes(turns, b, c)
    ensures Precedes(turns, a, c)
  {
    if StrLe(a, b) && StrLe(b, c) {
      StrLeTransitive(a, b, c);
    }
  }

  /** The recommended bot comes first by turns taken and then by name. */
  lemma {:induction false} RecommendedIsFirst(turns: Turns, bots: Bots, b: string)
    requires b in bots
    ensures Precedes(turns, Recommended(turns, bots), b)
    decreases |bots|
  {
    hide StrLe, Count;
    var front, last := bots[..|bots| - 1], bots[|bots| - 1];
    StrLeReflexive(last);
    if |bots| > 1 {
      var best := Recommended(turns, front);
      if b != last {
        assert b in front;
        RecommendedIsFirst(turns, front, b);
      }
      if !Precedes(turns, best, last) {
        StrLeTotal(best, last);
        if b != last {
          PrecedesIsTransitive(turns, last, best, b);
        }
      }
    }
  }

  /** So it is always admitted, and a snapshot never says that nobody may go on. */
  lemma RecommendedIsAdmitted(turns: Turns, bots: Bots, mode: Mode, maxSkew: nat, sid: string)
    ensures Count(turns, Recommended(turns, bots)) == Least(turns, bots)
    ensures WouldAllow(turns, Recommended(turns, bots), bots, maxSkew)
    ensures SnapshotOf(turns, sid, bots, mode, maxSkew).allowed
  {
    hide Recommended, StrLe, Least;
    var b := LeastServed(turns, bots);
    RecommendedIsFirst(turns, bots, b);
  }

  lemma SnapshotDescribes(turns: Turns, sid: string, bots: Bots, mode: Mode, maxSkew: nat)
    ensures Describes(SnapshotOf(turns, sid, bots, mode, maxSkew), sid, mode, turns, bots)
  {
    hide Least, Most, Recommended, WouldAllow, StrLe;
    forall b | b in bots ensures Precedes(turns, Recommended(turns, bots), b) {
      RecommendedIsFirst(turns, bots, b);
    }
    RecommendedIsAdmitted(turns, bots, mode, maxSkew, sid);
    var low := LeastServed(turns, bots);
    var top := MostServed(turns, bots);
    assert Count(turns, top) - Count(turns, low) == Skew(turns, bots);
  }

  // ----- Skew in hard mode -----

  /** A run of turns, each of which hard mode admits. */
  ghost predicate Admitted(turns: Turns, run: seq<string>, bots: Bots, maxSkew: nat)
    decreases |run|
  {
    run != [] ==>
      && run[0] in bots && WouldAllow(turns, run[0], bots, maxSkew)
      && Admitted(Taken(turns, run[0]), run[1..], bots, maxSkew)
  }

  function After(turns: Turns, run: seq<string>): Turns
    decreases |run|
  {
    if run == [] then turns else After(Taken(turns, run[0]), run[1..])
  }

  lemma LeastGrows(turns: Turns, bot: string, bots: Bots)
    ensures Least(turns, bots) <= Least(Taken(turns, bot), bots) <= Least(turns, bots) + 1
  {
    hide Least;
    var b := LeastServed(turns, bots);
    var after := LeastServed(Taken(turns, bot), bots);
    assert Count(Taken(turns, bot), b) <= Count(turns, b) + 1;
    assert Count(turns, after) <= Count(Taken(turns, bot), after);
  }

  lemma SkewStaysBounded(turns: Turns, bot: string, bots: Bots, maxSkew: nat)
    requires bot in bots
    requires Skew(turns, bots) <= maxSkew + 1 && WouldAllow(turns, bot, bots, maxSkew)
    ensures Skew(Taken(turns, bot), bots) <= maxSkew + 1
  {
    hide Least, Most;
    LeastGrows(turns, bot, bots);
    var top := MostServed(Taken(turns, bot), bots);
    assert Count(turns, top) <= Most(turns, bots);
  }

  /** Over any run, hard mode keeps the skew within one of the configured maximum. */
  lemma {:induction false} HardModeBoundsSkew(turns: Turns, run: seq<string>, bots: Bots, maxSkew: nat)
    requires Skew(turns, bots) <= maxSkew + 1 && Admitted(turns, run, bots, maxSkew)
    ensures Skew(After(turns, run), bots) <= maxSkew + 1
    decreases |run|
  {
    hide Skew, WouldAllow;
    if run != [] {
      SkewStaysBounded(turns, run[0], bots, maxSkew);
      HardModeBoundsSkew(Taken(turns, run[0]), run[1..], bots, maxSkew);
    }
  }

  lemma FreshSessionIsEven(bots: Bots)
    ensures Skew(map[], bots) == 0
  {}

  /** When one admitted turn keeps the skew within the configured maximum itself. */
  lemma TurnKeepsMaxSkewIff(turns: Turns, bot: string, bots: Bots, maxSkew: nat)
    requires bot in bots
    requires Skew(turns, bots) <= maxSkew && WouldAllow(turns, bot, bots, maxSkew)
    ensures Skew(Taken(turns, bot), bots) <= maxSkew
      <==> Count(turns, bot) < Least(turns, bots) + maxSkew || forall b :: b in bots ==> b == bot
  {
    hide Least, Most;
    var after := Taken(turns, bot);
    LeastGrows(turns, bot, bots);
    var top := MostServed(after, bots);
    var low := LeastServed(after, bots);
    var was := LeastServed(turns, bots);
    if Count(turns, bot) == Least(turns, bots) + maxSkew {
      assert Count(after, bot) == Least(turns, bots) + maxSkew + 1;
      if b :| b in bots && b != bot {
        assert Count(after, b) == Count(turns, b);
        assert Count(turns, b) <= Most(turns, bots);
        if maxSkew > 0 { assert was != bot && Count(after, was) == Count(turns, was); }
      }
    }
  }

  lemma {:induction false} SoloRun(
      turns: Turns, bot: string, other: string, bots: seq<string>, maxSkew: nat, n: nat) returns (run: seq<string>)
    requires bot in bots && other in bots && bot != other && Count(turns, other) == 0
    requires Count(turns, bot) + n <= maxSkew + 1
    decreases n
    ensures |run| == n && Admitted(turns, run, bots, maxSkew)
    ensures Count(After(turns, run), bot) == Count(turns, bot) + n && Count(After(turns, run), other) == 0
  {
    if n == 0 {
      run := [];
    } else {
      var rest := SoloRun(Taken(turns, bot), bot, other, bots, maxSkew, n - 1);
      run := [bot] + rest;
      assert run[1..] == rest;
    }
  }

  /** With two bots the configured maximum is exceeded from a fresh session, whatever it is. */
  lemma MaxSkewCanBeExceeded(bot: string, other: string, bots: seq<string>, maxSkew: nat) returns (run: seq<string>)
    requires bot in bots && other in bots && bot != other
    ensures Admitted(map[], run, bots, maxSkew) && Skew(After(map[], run), bots) == maxSkew + 1
  {
    hide Least, Most;
    run := SoloRun(map[], bot, other, bots, maxSkew, maxSkew + 1);
    var after := After(map[], run);
    FreshSessionIsEven(bots);
    HardModeBoundsSkew(map[], run, bots, maxSkew);
    assert Least(after, bots) <= Count(after, other) && Count(after, bot) <= Most(after, bots);
  }

  predicate OneBot(bots: seq<string>) {
    forall b, c :: b in bots && c in bots ==> b == c
  }

  /** So every run keeps to the configured maximum exactly when there is nobody to be unfair to. */
  lemma MaxSkewIsKeptIff(bots: Bots, maxSkew: nat)
    ensures (forall run :: Admitted(map[], run, bots, maxSkew) ==> Skew(After(map[], run), bots) <= maxSkew)
      <==> OneBot(bots)
  {
    hide Least, Most, Admitted, After;
    if OneBot(bots) {
      forall turns: Turns ensures Skew(turns, bots) == 0 {
        var low := LeastServed(turns, bots);
        var top := MostServed(turns, bots);
      }
    } else {
      var b, c :| b in bots && c in bots && b != c;
      var run := MaxSkewCanBeExceeded(b, c, bots, maxSkew);
    }
  }

  // ----- Following the recommendation -----

  /** The turns after `n` recommendations in a row were followed. */
  function Followed(bots: Bots, n: nat): Turns
  {
    if n == 0 then map[] else
      var turns := Followed(bots, n - 1);
      Taken(turns, Recommended(turns, bots))
  }

  function Pick(bots: set<string>): (bot: string)
    requires bots != {}
    ensures bot in bots
  {
    var sorted := Text.Sorted(bots);
    assert sorted[0] in sorted;
    sorted[0]
  }

  function Total(turns: Turns, bots: set<string>): nat {
    if bots == {} then 0 else
      var first := Pick(bots);
      Count(turns, first) + Total(turns, bots - {first})
  }

  lemma {:induction false} TotalGrows(turns: Turns, bot: string, bots: set<string>)
    ensures Total(Taken(turns, bot), bots) == Total(turns, bots) + if bot in bots then 1 else 0
    decreases |bots|
  {
    hide Pick;
    if bots != {} {
      var first := Pick(bots);
      TotalGrows(turns, bot, bots - {first});
    }
  }

  lemma {:induction false} TotalBounds(turns: Turns, bots: set<string>, low: nat, high: nat)
    requires forall b :: b in bots ==> low <= Count(turns, b) <= high
    ensures low * |bots| <= Total(turns, bots) <= high * |bots|
    decreases |bots|
  {
    hide Pick, Count;
    if bots != {} {
      var first := Pick(bots);
      var rest := bots - {first};
      TotalBounds(turns, rest, low, high);
      assert |bots| == |rest| + 1;
      OneMoreTimes(low, |rest|);
      OneMoreTimes(high, |rest|);
    }
  }

  lemma {:induction false} TotalWithout(turns: Turns, bots: set<string>, b: string)
    requires b in bots
    ensures Total(turns, bots) == Count(turns, b) + Total(turns, bots - {b})
    decreases |bots|
  {
    hide Pick, Count;
    var first := Pick(bots);
    if b != first {
      TotalWithout(turns, bots - {first}, b);
      TotalWithout(turns, bots - {b}, first);
      assert bots - {first} - {b} == bots - {b} - {first};
    }
  }

  /** One bot above the lower bound, or below the upper one, moves the total with it. */
  lemma TotalIsStrict(turns: Turns, bots: set<string>, b: string, low: nat, high: nat)
    requires b in bots && forall c :: c in bots ==> low <= Count(turns, c) <= high
    ensures Count(turns, b) > low ==> Total(turns, bots) > low * |bots|
    ensures Count(turns, b) < high ==> Total(turns, bots) < high * |bots|
  {
    hide Count, Total;
    var rest := bots - {b};
    TotalWithout(turns, bots, b);
    TotalBounds(turns, rest, low, high);
    assert |bots| == |rest| + 1;
    OneMoreTimes(low, |rest|);
    OneMoreTimes(high, |rest|);
  }

  lemma {:induction false} FollowedIsEven(bots: Bots, n: nat)
    ensures Skew(Followed(bots, n), bots) <= 1
    ensures Total(Followed(bots, n), set b | b in bots) == n
  {
    hide Total, Skew, Recommended;
    if n == 0 {
      FreshSessionIsEven(bots);
      NobodySpoke(set b | b in bots);
    } else {
      var turns := Followed(bots, n - 1);
      FollowedIsEven(bots, n - 1);
      RecommendedIsAdmitted(turns, bots, Hard, 0, "");
      SkewStaysBounded(turns, Recommended(turns, bots), bots, 0);
      TotalGrows(turns, Recommended(turns, bots), set b | b in bots);
    }
  }

  lemma NobodySpoke(bots: set<string>)
    ensures Total(map[], bots) == 0
  {
    TotalBounds(map[], bots, 0, 0);
  }

  /** After `n` followed recommendations each of `k` bots has had `n / k` turns, rounded down or up. */
  lemma RoundRobin(bots: Bots, n: nat, b: string)
    requires b in bots
    ensures var k := |set c | c in bots|;
      k > 0 && n / k <= Count(Followed(bots, n), b) <= (n + k - 1) / k
  {
    hide Total, Recommended, Followed, Least, Most, Count;
    var all, turns := (set c | c in bots), Followed(bots, n);
    var k, low := |all|, Least(turns, bots);
    assert b in all;
    FollowedIsEven(bots, n);
    var least := LeastServed(turns, bots);
    assert forall c :: c in all ==> c in bots;
    TotalBounds(turns, all, low, low + 1);
    TotalIsStrict(turns, all, least, low, low + 1);
    TotalIsStrict(turns, all, b, low, low + 1);
    QuotientIs(n, k, low);
    if Count(turns, b) > low {
      assert (low + 1) * k == low * k + k && (low + 2) * k == low * k + k + k;
      QuotientIs(n + k - 1, k, low + 1);
    } else {
      QuotientIsMonotone(n, n + k - 1, k);
    }
  }
}
