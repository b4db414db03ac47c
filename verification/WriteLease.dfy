/** Exclusive, time-bounded write leases on blackboard keys. */
module WriteLease {
  import opened Text

  datatype Mode = Advisory | Hard

  datatype Lease = Lease(holder: string, expiresAt: real)

  type Leases = map<string, Lease>

  datatype Status = Status(key: string, holder: string, acquired: bool, expired: bool, allowed: bool, mode: Mode)

  datatype Refusal = EmptyKey | EmptyBotId

  // ----- One call on stripped ids -----

  /** Whether another bot's lease on the key is still running. */
  predicate Blocked(leases: Leases, key: string, bot: string, now: real) {
    key in leases && now < leases[key].expiresAt && leases[key].holder != bot
  }

  predicate Lapsed(leases: Leases, key: string, now: real) {
    key in leases && leases[key].expiresAt <= now
  }

  function AfterAcquire(leases: Leases, key: string, bot: string, now: real, seconds: real): Leases {
    if Blocked(leases, key, bot, now) then leases else leases[key := Lease(bot, now + seconds)]
  }

  predicate Holds(leases: Leases, key: string, bot: string) {
    key in leases && leases[key].holder == bot
  }

  function AfterRelease(leases: Leases, key: string, bot: string): Leases {
    if Holds(leases, key, bot) then leases - {key} else leases
  }

  class SharedBlackboardWriteLease {
    const seconds: real
    const mode: Mode
    var leases: Leases

    constructor (seconds: real, mode: Mode)
      requires seconds > 0.0
      ensures this.seconds == seconds && this.mode == mode && leases == map[]
    {
      this.seconds, this.mode, leases := seconds, mode, map[];
    }

    method Acquire(key: string, bot: string, now: real) returns (r: Result<Status, Refusal>)
      modifies this
      ensures Strip(key) == "" ==> r == Err(EmptyKey) && leases == old(leases)
      ensures Strip(key) != "" && Strip(bot) == "" ==> r == Err(EmptyBotId) && leases == old(leases)
      ensures Strip(key) != "" && Strip(bot) != "" ==>
        && leases == AfterAcquire(old(leases), Strip(key), Strip(bot), now, seconds)
        && var blocked := Blocked(old(leases), Strip(key), Strip(bot), now);
           r == Ok(Status(Strip(key), leases[Strip(key)].holder, !blocked, Lapsed(old(leases), Strip(key), now),
             !blocked || mode == Advisory, mode))
    {
      hide Strip;
      var k, bid := Strip(key), Strip(bot);
      if k == "" {
        return Err(EmptyKey);
      }
      if bid == "" {
        return Err(EmptyBotId);
      }
      var expired := false;
      if k in leases {
        var current := leases[k];
        if now >= current.expiresAt {
          expired := true;
          leases := leases - {k};
        } else if current.holder == bid {
          leases := leases[k := Lease(bid, now + seconds)];
          return Ok(Status(k, bid, true, false, true, mode));
        } else {
          return Ok(Status(k, current.holder, false, false, mode == Advisory, mode));
        }
      }
      leases := leases[k := Lease(bid, now + seconds)];
      return Ok(Status(k, bid, true, expired, true, mode));
    }

    method Release(key: string, bot: string) returns (r: Result<bool, Refusal>)
      modifies this
      ensures Strip(key) == "" || Strip(bot) == "" ==> r.Err? && leases == old(leases)
      ensures Strip(key) != "" && Strip(bot) != "" ==>
        && r == Ok(Holds(old(leases), Strip(key), Strip(bot)))
        && leases == AfterRelease(old(leases), Strip(key), Strip(bot))
    {
      hide Strip;
      var k, bid := Strip(key), Strip(bot);
      if k == "" || bid == "" {
        return Err(EmptyKey);
      }
      if k !in leases || leases[k].holder != bid {
        return Ok(false);
      }
      leases := leases - {k};
      return Ok(true);
    }
  }

  // ----- Histories -----

  datatype Call = Acquire(key: string, bot: string, now: real) | Release(key: string, bot: string)

  function Step(leases: Leases, call: Call, seconds: real): Leases {
    match call
    case Acquire(k, b, now) => AfterAcquire(leases, k, b, now, seconds)
    case Release(k, b) => AfterRelease(leases, k, b)
  }

  function After(leases: Leases, calls: seq<Call>, seconds: real): Leases {
    if calls == [] then leases else Step(After(leases, calls[..|calls| - 1], seconds), calls[|calls| - 1], seconds)
  }

  /** The `i`-th call is an acquisition of the key, and it is granted. */
  predicate Granted(leases: Leases, calls: seq<Call>, i: nat, key: string, seconds: real)
    requires i < |calls|
  {
    && calls[i].Acquire? && calls[i].key == key
    && !Blocked(After(leases, calls[..i], seconds), key, calls[i].bot, calls[i].now)
  }

  /** The `r`-th call releases the key, and its caller was the holder. */
  predicate GivenUp(leases: Leases, calls: seq<Call>, r: nat, key: string, bot: string, seconds: real)
    requires r < |calls|
  {
    calls[r] == Release(key, bot) && Holds(After(leases, calls[..r], seconds), key, bot)
  }

  /** Wall-clock time as the acquiring bots read it does not run backwards. */
  predicate ClockRises(calls: seq<Call>) {
    forall i, j :: 0 <= i < j < |calls| && calls[i].Acquire? && calls[j].Acquire? ==> calls[i].now <= calls[j].now
  }

  /** While nothing is given up and no full lease has passed, the key stays with its holder. */
  lemma {:induction false} StaysWithHolder(leases: Leases, calls: seq<Call>, i: nat, j: nat, key: string, seconds: real)
    requires seconds > 0.0 && i < j <= |calls| && ClockRises(calls) && Granted(leases, calls, i, key, seconds)
    requires forall r :: i < r < j ==> !GivenUp(leases, calls, r, key, calls[i].bot, seconds)
    requires forall m :: i < m < j && calls[m].Acquire? ==> calls[m].now < calls[i].now + seconds
    ensures calls[i].Acquire?
    ensures var now := After(leases, calls[..j], seconds);
      Holds(now, key, calls[i].bot) && now[key].expiresAt >= calls[i].now + seconds
    decreases j
  {
    hide Granted, GivenUp, ClockRises, After, Step, Holds;
    AfterOneMore(leases, calls, j - 1, seconds);
    GrantedHolds(leases, calls, i, key, seconds);
    if i < j - 1 {
      StaysWithHolder(leases, calls, i, j - 1, key, seconds);
      NotGivenUp(leases, calls, j - 1, key, calls[i].bot, seconds);
      ClockReadLater(calls, i, j - 1);
      HolderIsKept(After(leases, calls[..j - 1], seconds), calls[j - 1], key, calls[i].bot, calls[i].now, seconds);
    }
  }

  lemma AfterOneMore(leases: Leases, calls: seq<Call>, k: nat, seconds: real)
    requires k < |calls|
    ensures After(leases, calls[..k + 1], seconds) == Step(After(leases, calls[..k], seconds), calls[k], seconds)
  {
    hide Step;
    assert calls[..k + 1][..k] == calls[..k];
  }

  /** A call made before a lease runs out leaves it with its holder, unless the holder gives it up. */
  lemma HolderIsKept(leases: Leases, call: Call, key: string, bot: string, from: real, seconds: real)
    requires seconds > 0.0 && Holds(leases, key, bot) && leases[key].expiresAt >= from + seconds
    requires call.Acquire? ==> from <= call.now < from + seconds
    requires call != Release(key, bot)
    ensures var after := Step(leases, call, seconds);
      Holds(after, key, bot) && after[key].expiresAt >= from + seconds
  {}

  lemma GrantedHolds(leases: Leases, calls: seq<Call>, i: nat, key: string, seconds: real)
    requires i < |calls| && Granted(leases, calls, i, key, seconds)
    ensures calls[i].Acquire?
    ensures var after := Step(After(leases, calls[..i], seconds), calls[i], seconds);
      Holds(after, key, calls[i].bot) && after[key].expiresAt == calls[i].now + seconds
  {
    hide After;
  }

  lemma NotGivenUp(leases: Leases, calls: seq<Call>, r: nat, key: string, bot: string, seconds: real)
    requires r < |calls| && !GivenUp(leases, calls, r, key, bot, seconds)
    ensures calls[r] != Release(key, bot) || !Holds(After(leases, calls[..r], seconds), key, bot)
  {
    hide After, Holds;
  }

  lemma ClockReadLater(calls: seq<Call>, i: nat, j: nat)
    ensures ClockRises(calls) && i < j < |calls| && calls[i].Acquire? && calls[j].Acquire? ==>
      calls[i].now <= calls[j].now
  {}

  /** Two bots' acquisitions of one key are separated by a release or by a full lease. */
  lemma {:induction false} AcquisitionsAreSeparated(
      leases: Leases, calls: seq<Call>, i: nat, j: nat, key: string, seconds: real)
    requires seconds > 0.0 && i < j < |calls| && ClockRises(calls)
    requires Granted(leases, calls, i, key, seconds) && Granted(leases, calls, j, key, seconds)
    requires calls[i].bot != calls[j].bot
    ensures calls[j].now >= calls[i].now + seconds
      || exists r :: i < r < j && GivenUp(leases, calls, r, key, calls[i].bot, seconds)
  {
    hide After, GivenUp;
    if calls[j].now < calls[i].now + seconds
      && forall r :: i < r < j ==> !GivenUp(leases, calls, r, key, calls[i].bot, seconds)
    {
      assert forall m :: i < m < j && calls[m].Acquire? ==> calls[m].now <= calls[j].now;
      StaysWithHolder(leases, calls, i, j, key, seconds);
    }
  }

  // ----- Who is granted a lease -----

  predicate NotReleased(calls: seq<Call>, i: nat, j: nat, key: string, bot: string)
    requires i <= j <= |calls|
  {
    forall r :: i < r < j ==> calls[r] != Release(key, bot)
  }

  /** Every lease in the table goes back to the acquisition that was granted last, and was not released since. */
  lemma {:induction false} LeaseHasOrigin(calls: seq<Call>, j: nat, key: string, seconds: real) returns (i: nat)
    requires j <= |calls| && key in After(map[], calls[..j], seconds)
    ensures i < j && calls[i].Acquire? && Granted(map[], calls, i, key, seconds)
    ensures After(map[], calls[..j], seconds)[key] == Lease(calls[i].bot, calls[i].now + seconds)
    ensures NotReleased(calls, i, j, key, calls[i].bot)
    decreases j
  {
    hide After;
    if j == 0 {
      assert After(map[], calls[..0], seconds) == map[] by { NoCalls(calls, seconds); }
    } else {
      var before, call := After(map[], calls[..j - 1], seconds), calls[j - 1];
      AfterOneMore(map[], calls, j - 1, seconds);
      if call.Acquire? && call.key == key && !Blocked(before, key, call.bot, call.now) {
        i := j - 1;
      } else {
        i := LeaseHasOrigin(calls, j - 1, key, seconds);
      }
    }
  }

  lemma NoCalls(calls: seq<Call>, seconds: real)
    ensures After(map[], calls[..0], seconds) == map[]
  {}

  /** An acquisition is held up by an earlier one of another bot that was granted, still runs and was not released. */
  ghost predicate HeldUp(calls: seq<Call>, j: nat, key: string, seconds: real)
    requires j < |calls| && calls[j].Acquire?
  {
    exists i: nat ::
      && i < j && calls[i].Acquire? && Granted(map[], calls, i, key, seconds)
      && calls[i].bot != calls[j].bot && calls[j].now < calls[i].now + seconds
      && NotReleased(calls, i, j, key, calls[i].bot)
  }

  lemma GrantedUnlessHeldUp(calls: seq<Call>, j: nat, key: string, seconds: real)
    requires seconds > 0.0 && ClockRises(calls) && j < |calls| && calls[j].Acquire? && calls[j].key == key
    ensures Granted(map[], calls, j, key, seconds) <==> !HeldUp(calls, j, key, seconds)
  {
    hide After, ClockRises, GivenUp;
    if HeldUp(calls, j, key, seconds) {
      var i: nat :| i < j && calls[i].Acquire? && Granted(map[], calls, i, key, seconds)
        && calls[i].bot != calls[j].bot && calls[j].now < calls[i].now + seconds
        && NotReleased(calls, i, j, key, calls[i].bot);
      forall m | i < m < j && calls[m].Acquire? ensures calls[m].now < calls[i].now + seconds {
        ClockReadLater(calls, m, j);
      }
      forall r | i < r < j ensures !GivenUp(map[], calls, r, key, calls[i].bot, seconds) {
        OnlyReleasesGiveUp(calls, r, key, calls[i].bot, seconds);
      }
      StaysWithHolder(map[], calls, i, j, key, seconds);
    } else if Blocked(After(map[], calls[..j], seconds), key, calls[j].bot, calls[j].now) {
      var i := LeaseHasOrigin(calls, j, key, seconds);
    }
  }

  lemma OnlyReleasesGiveUp(calls: seq<Call>, r: nat, key: string, bot: string, seconds: real)
    requires r < |calls| && calls[r] != Release(key, bot)
    ensures !GivenUp(map[], calls, r, key, bot, seconds)
  {}

  /**
    Who wins, told from the calls alone: an acquisition does unless another bot won the key less than a
    lease ago and has not released it since.
  */
  ghost predicate Wins(calls: seq<Call>, j: nat, key: string, seconds: real)
    requires j < |calls|
    decreases j
  {
    && calls[j].Acquire? && calls[j].key == key
    && forall i: nat :: i < j && Wins(calls, i, key, seconds) && calls[i].bot != calls[j].bot ==>
         calls[j].now >= calls[i].now + seconds || !NotReleased(calls, i, j, key, calls[i].bot)
  }

  /** The table grants exactly the acquisitions that win. */
  lemma {:induction false} GrantedIffWins(calls: seq<Call>, j: nat, key: string, seconds: real)
    requires seconds > 0.0 && ClockRises(calls) && j < |calls|
    ensures Granted(map[], calls, j, key, seconds) <==> Wins(calls, j, key, seconds)
    decreases j
  {
    hide After, ClockRises, NotReleased, Granted;
    forall i: nat | i < j ensures Granted(map[], calls, i, key, seconds) <==> Wins(calls, i, key, seconds) {
      GrantedIffWins(calls, i, key, seconds);
    }
    GrantedAcquires(calls, key, seconds);
    if calls[j].Acquire? && calls[j].key == key {
      GrantedUnlessHeldUp(calls, j, key, seconds);
    }
  }

  lemma GrantedAcquires(calls: seq<Call>, key: string, seconds: real)
    ensures forall i: nat :: i < |calls| && Granted(map[], calls, i, key, seconds) ==>
      calls[i].Acquire? && calls[i].key == key
  {
    hide After;
  }

  /** A release ends the lease of its caller and no other one, and a call touches no other key. */
  lemma CallsStayApart(leases: Leases, call: Call, key: string, seconds: real)
    ensures var after := Step(leases, call, seconds);
      && (call.Release? && call.key == key ==>
            (key in after <==> key in leases && leases[key].holder != call.bot)
            && (key in after ==> after[key] == leases[key]))
      && (call.key != key ==> (key in after <==> key in leases) && (key in after ==> after[key] == leases[key]))
  {}
}
