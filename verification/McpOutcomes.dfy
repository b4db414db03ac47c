/** When a launch or a call has to succeed, and what it must have heard when it fails. */
module McpOutcomes {
  import opened McpNegotiation
  import opened Text

  // ----- Replies -----

  /** The client's most preferred version among those offered and not tried. */
  predicate Preferred(mine: seq<string>, offered: seq<string>, tried: set<string>, v: string) {
    exists i :: 0 <= i < |mine| && mine[i] == v && v in offered && v !in tried
      && forall j :: 0 <= j < i ==> mine[j] !in offered || mine[j] in tried
  }

  lemma {:induction false} FirstIsPreferred(mine: seq<string>, offered: seq<string>, tried: set<string>)
    ensures forall v :: FirstShared(mine, offered, tried) == Some(v) <==> Preferred(mine, offered, tried, v)
  {
    if mine != [] {
      var rest := mine[1..];
      FirstIsPreferred(rest, offered, tried);
      forall v ensures FirstShared(mine, offered, tried) == Some(v) <==> Preferred(mine, offered, tried, v) {
        PreferredOfMore(mine, offered, tried, v);
      }
    }
  }

  lemma PreferredOfMore(mine: seq<string>, offered: seq<string>, tried: set<string>, v: string)
    requires mine != []
    ensures Preferred(mine, offered, tried, v) <==>
      if mine[0] in offered && mine[0] !in tried then v == mine[0] else Preferred(mine[1..], offered, tried, v)
  {
    var rest := mine[1..];
    if Preferred(mine, offered, tried, v) {
      var i :| 0 <= i < |mine| && mine[i] == v && v in offered && v !in tried
        && forall j :: 0 <= j < i ==> mine[j] !in offered || mine[j] in tried;
      if i > 0 {
        assert rest[i - 1] == v && forall j :: 0 <= j < i - 1 ==> rest[j] == mine[j + 1];
      }
    }
    if !(mine[0] in offered && mine[0] !in tried) && Preferred(rest, offered, tried, v) {
      var i :| 0 <= i < |rest| && rest[i] == v && v in offered && v !in tried
        && forall j :: 0 <= j < i ==> rest[j] !in offered || rest[j] in tried;
      assert mine[i + 1] == v && forall j :: 1 <= j < i + 1 ==> mine[j] == rest[j - 1];
    }
  }

  /** The server does not speak the version and names those it does. */
  predicate Refuses(reply: Reply) {
    reply.Said? && reply.body.error.Some? && reply.body.error.value.code == Some(-32022)
  }

  /** The server introduces itself as a modern one. */
  predicate Discovers(reply: Reply) {
    reply.Said? && reply.body.error.None? && reply.body.result.Some?
    && reply.body.result.value.supportedVersions.Some?
  }

  /** A complete discovery that leads to version `v` when `asked` was probed for. */
  predicate Introduces(versions: Versions, reply: Reply, asked: string, v: string) {
    && Discovers(reply) && reply.body.result.value.resultType == Complete
    && var supported := reply.body.result.value.supportedVersions.value;
       if asked in supported then v == asked else Preferred(versions.modern, supported, {}, v)
  }

  /** The server shows neither a modern introduction nor a modern error. */
  predicate LooksLegacy(reply: Reply) {
    || reply.Silence?
    || (reply.Said?
        && !(reply.body.error.None? && reply.body.result.Some? && reply.body.result.value.supportedVersions.Some?)
        && (reply.body.error.Some? && reply.body.error.value.code.Some? ==>
              reply.body.error.value.code.value !in {-32020, -32021, -32022}))
  }

  /** A complete answer to `initialize` with a version that the client knows. */
  predicate Welcomes(versions: Versions, reply: Reply, v: string) {
    && reply.Said? && reply.body.error.None? && reply.body.result.Some?
    && reply.body.result.value.resultType == Complete
    && reply.body.result.value.protocolVersion == Some(v) && v in versions.legacy
  }

  /** A late answer to the probe shows that the server is modern after all. */
  predicate Reveals(reply: Reply) {
    && reply.Said?
    && ((reply.body.result.Some? && reply.body.result.value.supportedVersions.Some?)
        || (reply.body.error.Some? && reply.body.error.value.code == Some(-32022)))
  }

  predicate Objects(reply: Reply) {
    reply.Said? && reply.body.error.Some?
  }

  // ----- Courses -----

  /**
    From the `n`-th write and the `m`-th wait on, these versions are tried one after the other: each
    but the last is refused, and the next one is the best of those offered that were not tried.
  */
  predicate Course(versions: Versions, w: World, n: nat, m: nat, tried: set<string>, probes: seq<string>)
    decreases |probes|
  {
    && probes != [] && w.writable(n)
    && (|probes| > 1 ==>
          && Refuses(w.answers(m))
          && Preferred(versions.modern, w.answers(m).body.error.value.supported, tried + {probes[0]}, probes[1])
          && Course(versions, w, n + 1, m + 1, tried + {probes[0]}, probes[1..]))
  }

  ghost predicate FindsVersion(
      versions: Versions, w: World, n: nat, m: nat, tried: set<string>, probes: seq<string>, v: string)
  {
    Course(versions, w, n, m, tried, probes)
    && Introduces(versions, w.answers(m + |probes| - 1), probes[|probes| - 1], v)
  }

  predicate Settles(end: End, era: Era, v: string) {
    end.failure.None? && end.session.era == Some(era) && end.session.version == Some(v)
  }

  // ----- When probing succeeds -----

  lemma LastOfMore(probes: seq<string>)
    ensures |probes| > 1 ==> probes[1..][|probes[1..]| - 1] == probes[|probes| - 1]
  {}

  /** What one round of the probe loop does when the legacy fallback is ruled out. */
  lemma ProbeOnce(versions: Versions, w: World, s: Session, version: string, tried: set<string>, v: string)
    requires version in versions.modern && version !in tried
    ensures var end := ProbeLoop(versions, w, s, false, version, tried);
      var reply := w.answers(s.waits);
      var after := Waited(Sent(s, Probe(version)), reply);
      && (w.writable(s.sends) && Introduces(versions, reply, version, v) ==> Settles(end, Modern, v))
      && (Settles(end, Modern, v) && !Refuses(reply) ==>
            w.writable(s.sends) && Introduces(versions, reply, version, v))
      && (end.failure.None? && Refuses(reply) ==>
            w.writable(s.sends)
            && exists next :: Preferred(versions.modern, reply.body.error.value.supported, tried + {version}, next))
      && (w.writable(s.sends) && Refuses(reply) ==>
            forall next :: Preferred(versions.modern, reply.body.error.value.supported, tried + {version}, next) ==>
              next in versions.modern && next !in tried + {version}
              && end == ProbeLoop(versions, w, after, false, next, tried + {version}))
  {
    hide Preferred;
    var reply := w.answers(s.waits);
    if Discovers(reply) {
      FirstIsPreferred(versions.modern, reply.body.result.value.supportedVersions.value, {});
    }
    if Refuses(reply) {
      FirstIsPreferred(versions.modern, reply.body.error.value.supported, tried + {version});
    }
  }

  ghost predicate SomeCourse(
      versions: Versions, w: World, n: nat, m: nat, tried: set<string>, version: string, v: string)
  {
    exists probes :: FindsVersion(versions, w, n, m, tried, probes, v) && probes[0] == version
  }

  lemma CourseOfMore(
      versions: Versions, w: World, n: nat, m: nat, tried: set<string>, version: string, next: string, v: string)
    requires w.writable(n) && Refuses(w.answers(m))
    requires Preferred(versions.modern, w.answers(m).body.error.value.supported, tried + {version}, next)
    ensures SomeCourse(versions, w, n + 1, m + 1, tried + {version}, next, v) ==>
      SomeCourse(versions, w, n, m, tried, version, v)
  {
    hide Preferred, Introduces;
    if SomeCourse(versions, w, n + 1, m + 1, tried + {version}, next, v) {
      var rest :| FindsVersion(versions, w, n + 1, m + 1, tried + {version}, rest, v) && rest[0] == next;
      var probes := [version] + rest;
      assert probes[1..] == rest;
      LastOfMore(probes);
      assert FindsVersion(versions, w, n, m, tried, probes, v);
    }
  }

  /** Probing without a way back succeeds exactly along a course that finds a version, and with that version. */
  lemma {:induction false} ProbingSucceedsIff(
      versions: Versions, w: World, s: Session, version: string, tried: set<string>, v: string)
    requires version in versions.modern && version !in tried
    ensures Settles(ProbeLoop(versions, w, s, false, version, tried), Modern, v)
      <==> SomeCourse(versions, w, s.sends, s.waits, tried, version, v)
    decreases (set x | x in versions.modern) - tried
  {
    hide ProbeLoop, Preferred, Introduces, SomeCourse;
    var n, m, end := s.sends, s.waits, ProbeLoop(versions, w, s, false, version, tried);
    var reply := w.answers(m);
    var after := Waited(Sent(s, Probe(version)), reply);
    assert version in (set x | x in versions.modern) - tried;
    ProbeOnce(versions, w, s, version, tried, v);
    if Settles(end, Modern, v) {
      if Refuses(reply) {
        var next :| Preferred(versions.modern, reply.body.error.value.supported, tried + {version}, next);
        ProbingSucceedsIff(versions, w, after, next, tried + {version}, v);
        CourseOfMore(versions, w, n, m, tried, version, next, v);
      } else {
        OneProbe(versions, w, n, m, tried, version, v);
      }
    }
    if SomeCourse(versions, w, n, m, tried, version, v) {
      var probes := TheCourse(versions, w, n, m, tried, version, v);
      if |probes| > 1 {
        ProbingSucceedsIff(versions, w, after, probes[1], tried + {version}, v);
        RestOfCourse(versions, w, n, m, tried, probes, v);
      }
    }
  }

  lemma OneProbe(versions: Versions, w: World, n: nat, m: nat, tried: set<string>, version: string, v: string)
    requires w.writable(n) && Introduces(versions, w.answers(m), version, v)
    ensures SomeCourse(versions, w, n, m, tried, version, v)
  {
    hide Introduces;
    assert FindsVersion(versions, w, n, m, tried, [version], v);
  }

  lemma TheCourse(versions: Versions, w: World, n: nat, m: nat, tried: set<string>, version: string, v: string)
      returns (probes: seq<string>)
    requires SomeCourse(versions, w, n, m, tried, version, v)
    ensures FindsVersion(versions, w, n, m, tried, probes, v) && probes[0] == version
  {
    probes :| FindsVersion(versions, w, n, m, tried, probes, v) && probes[0] == version;
  }

  lemma RestOfCourse(
      versions: Versions, w: World, n: nat, m: nat, tried: set<string>, probes: seq<string>, v: string)
    requires FindsVersion(versions, w, n, m, tried, probes, v) && |probes| > 1
    ensures SomeCourse(versions, w, n + 1, m + 1, tried + {probes[0]}, probes[1], v)
  {
    hide Introduces, Preferred;
    LastOfMore(probes);
    assert FindsVersion(versions, w, n + 1, m + 1, tried + {probes[0]}, probes[1..], v);
  }

  // ----- When a launch succeeds -----

  /** From this point on, starting with the preferred version, probing leads to `v`. */
  ghost predicate ProbingFinds(versions: Versions, w: World, n: nat, m: nat, v: string) {
    versions.modern != [] && SomeCourse(versions, w, n, m, {}, versions.modern[0], v)
  }

  /** The handshake as such, without the way back. */
  lemma HandshakeSucceedsIff(versions: Versions, w: World, s: Session, pendingProbe: bool, v: string)
    requires versions.legacy != [] && (pendingProbe ==> versions.modern != [])
    ensures var end := InitializeLegacy(versions, w, s, pendingProbe);
      && (Settles(end, Legacy, v) <==> w.writable(s.sends) && Welcomes(versions, w.answers(s.waits), v))
      && (Settles(end, Modern, v) <==>
            && pendingProbe && w.writable(s.sends) && Objects(w.answers(s.waits))
            && Reveals(w.answers(s.waits + 1)) && ProbingFinds(versions, w, s.sends + 1, s.waits + 2, v))
  {
    hide ProbeLoop, SomeCourse, InitializeLegacy, Welcomes, Reveals;
    var reply, late := w.answers(s.waits), w.answers(s.waits + 1);
    if pendingProbe && w.writable(s.sends) && Objects(reply) && Reveals(late) {
      var s4 := AfterLate(versions, s, reply, late);
      LateAnswerLeads(versions, w, s);
      ProbingSucceedsIff(versions, w, s4, versions.modern[0], {}, v);
      ModernRound(versions, w, s4, versions.modern[0], {});
      ObjectionIsNoWelcome(versions, reply, v);
    } else {
      NoLateAnswer(versions, w, s, pendingProbe, v);
    }
  }

  /** The session after a refused handshake and a late answer to the probe. */
  function AfterLate(versions: Versions, s: Session, reply: Reply, late: Reply): Session
    requires versions.legacy != []
  {
    Waited(Waited(Sent(s.(legacyMode := true), Initialize(versions.legacy[0])), reply), late).(legacyMode := false)
  }

  lemma LateAnswerLeads(versions: Versions, w: World, s: Session)
    requires versions.legacy != [] && versions.modern != []
    requires w.writable(s.sends) && Objects(w.answers(s.waits)) && Reveals(w.answers(s.waits + 1))
    ensures InitializeLegacy(versions, w, s, true)
      == ProbeLoop(
           versions, w, AfterLate(versions, s, w.answers(s.waits), w.answers(s.waits + 1)), false, versions.modern[0],
           {})
    ensures var s4 := AfterLate(versions, s, w.answers(s.waits), w.answers(s.waits + 1));
      s4.sends == s.sends + 1 && s4.waits == s.waits + 2 && !s4.legacyMode
  {
    hide ProbeLoop;
  }

  lemma ObjectionIsNoWelcome(versions: Versions, reply: Reply, v: string)
    ensures Objects(reply) ==> !Welcomes(versions, reply, v)
  {}

  /** Without a late modern answer the handshake succeeds in the legacy era or not at all. */
  lemma NoLateAnswer(versions: Versions, w: World, s: Session, pendingProbe: bool, v: string)
    requires versions.legacy != [] && (pendingProbe ==> versions.modern != [])
    requires !(pendingProbe && w.writable(s.sends) && Objects(w.answers(s.waits)) && Reveals(w.answers(s.waits + 1)))
    ensures var end := InitializeLegacy(versions, w, s, pendingProbe);
      && (Settles(end, Legacy, v) <==> w.writable(s.sends) && Welcomes(versions, w.answers(s.waits), v))
      && !Settles(end, Modern, v)
  {
    hide ProbeLoop;
  }

  /** The first probe: it is like any other unless the server looks like a legacy one. */
  lemma FirstProbeGoesOn(versions: Versions, w: World, s: Session)
    requires versions.modern != []
    ensures var version, reply := versions.modern[0], w.answers(s.waits);
      ProbeLoop(versions, w, s, true, version, {})
        == if w.writable(s.sends) && LooksLegacy(reply) && versions.legacy != []
           then InitializeLegacy(versions, w, Waited(Sent(s, Probe(version)), reply), reply.Silence?)
           else ProbeLoop(versions, w, s, false, version, {})
  {
    hide InitializeLegacy, AdoptModern;
  }

  lemma LegacyIsNoIntroduction(versions: Versions, w: World, n: nat, m: nat, v: string)
    ensures LooksLegacy(w.answers(m)) ==> !ProbingFinds(versions, w, n, m, v)
  {
    hide Preferred;
  }

  /**
    When a launch succeeds, read off what the server answers. It ends in the legacy era exactly when the
    server answers `initialize` in full with any version of the client's legacy list - after a first probe
    that looked legacy, if the client has modern versions at all. It ends in the modern era exactly when
    probing finds a version at once, or, after a silent probe and a refused `initialize`, when a late
    answer reveals a modern server and probing then finds one.
  */
  lemma LaunchSucceedsIff(versions: Versions, w: World, s: Session, v: string)
    requires versions.modern != [] || versions.legacy != []
    ensures var end, n, m := Negotiate(versions, w, s), s.sends, s.waits;
      && (Settles(end, Legacy, v) <==>
            && versions.legacy != []
            && if versions.modern == [] then w.writable(n) && Welcomes(versions, w.answers(m), v)
               else w.writable(n) && LooksLegacy(w.answers(m))
                    && w.writable(n + 1) && Welcomes(versions, w.answers(m + 1), v))
      && (Settles(end, Modern, v) <==>
            || ProbingFinds(versions, w, n, m, v)
            || (&& versions.modern != [] && versions.legacy != []
                && w.writable(n) && w.answers(m).Silence?
                && w.writable(n + 1) && Objects(w.answers(m + 1))
                && Reveals(w.answers(m + 2)) && ProbingFinds(versions, w, n + 2, m + 3, v)))
  {
    hide ProbeLoop, InitializeLegacy, SomeCourse, LooksLegacy, Welcomes;
    var n, m := s.sends, s.waits;
    if versions.modern == [] {
      HandshakeSucceedsIff(versions, w, s, false, v);
    } else {
      var version, reply := versions.modern[0], w.answers(m);
      var s2 := Waited(Sent(s, Probe(version)), reply);
      FirstProbeGoesOn(versions, w, s);
      LegacyIsNoIntroduction(versions, w, n, m, v);
      ProbingSucceedsIff(versions, w, s, version, {}, v);
      ModernRound(versions, w, s, version, {});
      SilenceLooksLegacy(reply);
      if versions.legacy != [] {
        HandshakeSucceedsIff(versions, w, s2, reply.Silence?, v);
      }
    }
  }

  lemma SilenceLooksLegacy(reply: Reply)
    ensures reply.Silence? ==> LooksLegacy(reply)
  {}

  // ----- Why a launch fails -----

  /** The last write did not go through, or the last wait found the channel closed. */
  predicate ChannelFailed(w: World, s: Session) {
    (s.sends > 0 && !w.writable(s.sends - 1)) || (s.waits > 0 && w.answers(s.waits - 1).Lost?)
  }

  /** The last line heard answers a probe, but names no version that is left to try. */
  predicate OffersNothing(log: seq<Line>) {
    && |log| >= 2 && log[|log| - 1].Heard? && log[|log| - 2].Probe?
    && var body := log[|log| - 1].body;
       || (body.error.Some? && body.error.value.code == Some(-32022))
       || (body.error.None? && body.result.Some? && body.result.value.supportedVersions.Some?
           && body.result.value.resultType == Complete)
  }

  /** The last line heard is a complete answer to `initialize`. */
  predicate InsistsOnVersion(log: seq<Line>) {
    && |log| >= 2 && log[|log| - 1].Heard? && log[|log| - 2].Initialize?
    && var body := log[|log| - 1].body;
       body.error.None? && body.result.Some? && body.result.value.resultType == Complete
  }

  /** The kind of a failure is told by what happened last. */
  predicate FailureFits(w: World, end: End) {
    end.failure.Some? ==>
      var s := end.session;
      && s.log != []
      && (end.failure.value.TransportError? <==> ChannelFailed(w, s))
      && (end.failure.value.TimeoutError? <==>
            !ChannelFailed(w, s) && (s.log[|s.log| - 1].Probe? || s.log[|s.log| - 1].Initialize?))
      && (end.failure.value.VersionError? <==> OffersNothing(s.log) || InsistsOnVersion(s.log))
  }

  lemma {:induction false} ProbingFailureFits(
      versions: Versions, w: World, s: Session, version: string, tried: set<string>)
    requires version in versions.modern && version !in tried
    ensures FailureFits(w, ProbeLoop(versions, w, s, false, version, tried))
    decreases (set x | x in versions.modern) - tried
  {
    hide FailureFits;
    var reply := w.answers(s.waits);
    var after := Waited(Sent(s, Probe(version)), reply);
    assert version in (set x | x in versions.modern) - tried;
    var end := ProbeLoop(versions, w, s, false, version, tried);
    if w.writable(s.sends) && Refuses(reply)
      && FirstShared(versions.modern, reply.body.error.value.supported, tried + {version}).Some?
    {
      var next := FirstShared(versions.modern, reply.body.error.value.supported, tried + {version}).value;
      ProbingFailureFits(versions, w, after, next, tried + {version});
    } else {
      ProbeFailsHere(versions, w, s, version, tried);
    }
  }

  lemma ProbeFailsHere(versions: Versions, w: World, s: Session, version: string, tried: set<string>)
    requires version in versions.modern && version !in tried
    requires w.writable(s.sends) && Refuses(w.answers(s.waits)) ==>
      FirstShared(versions.modern, w.answers(s.waits).body.error.value.supported, tried + {version}).None?
    ensures FailureFits(w, ProbeLoop(versions, w, s, false, version, tried))
  {
    hide InitializeLegacy, AdoptModern, FirstShared, FailureFits, ProbeLoop;
    if !w.writable(s.sends) || !w.answers(s.waits).Said? {
      UnheardProbeFits(versions, w, s, version, tried);
    } else if Discovers(w.answers(s.waits)) {
      DiscoveryFits(versions, w, s, version, tried);
    } else {
      AnsweredProbeFits(versions, w, s, version, tried);
    }
  }

  lemma UnheardProbeFits(versions: Versions, w: World, s: Session, version: string, tried: set<string>)
    requires version in versions.modern && version !in tried
    requires !w.writable(s.sends) || !w.answers(s.waits).Said?
    ensures FailureFits(w, ProbeLoop(versions, w, s, false, version, tried))
  {
    hide InitializeLegacy, AdoptModern, FirstShared, IsUnsupported, IsDiscovery, OffersNothing, InsistsOnVersion;
    NothingHeard(Sent(s, Probe(version)).log);
  }

  lemma DiscoveryFits(versions: Versions, w: World, s: Session, version: string, tried: set<string>)
    requires version in versions.modern && version !in tried
    requires w.writable(s.sends) && Discovers(w.answers(s.waits))
    ensures FailureFits(w, ProbeLoop(versions, w, s, false, version, tried))
  {
    hide InitializeLegacy, FirstShared;
  }

  lemma AnsweredProbeFits(versions: Versions, w: World, s: Session, version: string, tried: set<string>)
    requires version in versions.modern && version !in tried
    requires w.writable(s.sends) && w.answers(s.waits).Said? && !Discovers(w.answers(s.waits))
    requires Refuses(w.answers(s.waits)) ==>
      FirstShared(versions.modern, w.answers(s.waits).body.error.value.supported, tried + {version}).None?
    ensures FailureFits(w, ProbeLoop(versions, w, s, false, version, tried))
  {
    hide InitializeLegacy, AdoptModern, FirstShared;
  }

  /** A log that ends with something said has nothing heard at its end. */
  lemma NothingHeard(log: seq<Line>)
    ensures log != [] && !log[|log| - 1].Heard? ==> !OffersNothing(log) && !InsistsOnVersion(log)
  {}

  lemma HandshakeFailureFits(versions: Versions, w: World, s: Session, pendingProbe: bool)
    requires versions.legacy != [] && (pendingProbe ==> versions.modern != [])
    ensures FailureFits(w, InitializeLegacy(versions, w, s, pendingProbe))
  {
    hide ProbeLoop;
    var reply, late := w.answers(s.waits), w.answers(s.waits + 1);
    var s2 := Waited(Sent(s.(legacyMode := true), Initialize(versions.legacy[0])), reply);
    var s4 := Waited(s2, late).(legacyMode := false);
    if versions.modern != [] {
      ProbingFailureFits(versions, w, s4, versions.modern[0], {});
    }
  }

  /**
    A failed launch is a transport failure exactly when the channel failed last, a timeout exactly when the
    last line said got no answer, a version failure exactly when the last answer named versions and none
    of them would do, and a protocol failure in every other case.
  */
  lemma LaunchFailureFits(versions: Versions, w: World, s: Session)
    requires versions.modern != [] || versions.legacy != []
    ensures FailureFits(w, Negotiate(versions, w, s))
  {
    hide ProbeLoop, InitializeLegacy, FailureFits, LooksLegacy;
    if versions.modern == [] {
      HandshakeFailureFits(versions, w, s, false);
    } else {
      var version, reply := versions.modern[0], w.answers(s.waits);
      FirstProbeGoesOn(versions, w, s);
      ProbingFailureFits(versions, w, s, version, {});
      if versions.legacy != [] {
        HandshakeFailureFits(versions, w, Waited(Sent(s, Probe(version)), reply), reply.Silence?);
      }
    }
  }

  // ----- Requests -----

  /** A complete result. */
  predicate Serves(reply: Reply) {
    && reply.Said? && reply.body.error.None? && reply.body.result.Some?
    && reply.body.result.value.resultType == Complete
  }

  /** Repeating the request with these versions, the last one is served. */
  predicate ServedBy(versions: Versions, w: World, n: nat, m: nat, tried: set<string>, used: seq<string>) {
    Course(versions, w, n, m, tried, used) && Serves(w.answers(m + |used| - 1))
  }

  ghost predicate SomeService(
      versions: Versions, w: World, n: nat, m: nat, tried: set<string>, version: string, v: string)
  {
    exists used :: ServedBy(versions, w, n, m, tried, used) && used[0] == version && used[|used| - 1] == v
  }

  lemma CallOnceMore(versions: Versions, w: World, s: Session, tried: set<string>)
    requires s.era == Some(Modern) && s.version.Some? && s.version.value in versions.modern
    requires s.version.value !in tried
    ensures var end := CallLoop(versions, w, s, tried);
      var reply, version := w.answers(s.waits), s.version.value;
      var after := Waited(Sent(s, Request(Some(version))), reply);
      && (w.writable(s.sends) && Serves(reply) ==> end == End(after, None))
      && (end.failure.None? && !Refuses(reply) ==> w.writable(s.sends) && Serves(reply) && end == End(after, None))
      && (end.failure.None? && Refuses(reply) ==>
            w.writable(s.sends)
            && exists next :: Preferred(versions.modern, reply.body.error.value.supported, tried + {version}, next))
      && (w.writable(s.sends) && Refuses(reply) ==>
            forall next :: Preferred(versions.modern, reply.body.error.value.supported, tried + {version}, next) ==>
              next in versions.modern && next !in tried + {version}
              && end == CallLoop(versions, w, after.(version := Some(next)), tried + {version}))
  {
    hide Preferred;
    var reply := w.answers(s.waits);
    if Refuses(reply) {
      FirstIsPreferred(versions.modern, reply.body.error.value.supported, tried + {s.version.value});
    }
  }

  lemma ServiceOfMore(
      versions: Versions, w: World, n: nat, m: nat, tried: set<string>, version: string, next: string, v: string)
    requires w.writable(n) && Refuses(w.answers(m))
    requires Preferred(versions.modern, w.answers(m).body.error.value.supported, tried + {version}, next)
    requires SomeService(versions, w, n + 1, m + 1, tried + {version}, next, v)
    ensures SomeService(versions, w, n, m, tried, version, v)
  {
    hide Preferred, Serves;
    var rest :| ServedBy(versions, w, n + 1, m + 1, tried + {version}, rest) && rest[0] == next
      && rest[|rest| - 1] == v;
    var used := [version] + rest;
    assert used[1..] == rest;
    LastOfMore(used);
    assert ServedBy(versions, w, n, m, tried, used);
  }

  lemma ServiceIsCourse(
      versions: Versions, w: World, n: nat, m: nat, tried: set<string>, version: string, v: string)
      returns (used: seq<string>)
    requires SomeService(versions, w, n, m, tried, version, v)
    ensures used != [] && used[0] == version && w.writable(n)
    ensures |used| == 1 ==> v == version && Serves(w.answers(m))
    ensures |used| > 1 ==>
      && Refuses(w.answers(m))
      && Preferred(versions.modern, w.answers(m).body.error.value.supported, tried + {version}, used[1])
      && SomeService(versions, w, n + 1, m + 1, tried + {version}, used[1], v)
  {
    hide Preferred, Serves;
    used :| ServedBy(versions, w, n, m, tried, used) && used[0] == version && used[|used| - 1] == v;
    if |used| > 1 {
      LastOfMore(used);
      assert ServedBy(versions, w, n + 1, m + 1, tried + {version}, used[1..]);
    }
  }

  /**
    A modern call succeeds exactly when the request, repeated with the best version left after each refusal, is
    served in full, and leaves the session with the version that was served.
  */
  lemma {:induction false} CallSucceedsIff(versions: Versions, w: World, s: Session, tried: set<string>, v: string)
    requires s.era == Some(Modern) && s.version.Some? && s.version.value in versions.modern
    requires s.version.value !in tried
    ensures Settles(CallLoop(versions, w, s, tried), Modern, v)
      <==> SomeService(versions, w, s.sends, s.waits, tried, s.version.value, v)
    decreases (set x | x in versions.modern) - tried
  {
    hide CallLoop, Preferred, Serves, SomeService;
    var n, m, version, end := s.sends, s.waits, s.version.value, CallLoop(versions, w, s, tried);
    var reply := w.answers(m);
    var after := Waited(Sent(s, Request(Some(version))), reply);
    assert version in (set x | x in versions.modern) - tried;
    CallOnceMore(versions, w, s, tried);
    if Settles(end, Modern, v) {
      if Refuses(reply) {
        var next :| Preferred(versions.modern, reply.body.error.value.supported, tried + {version}, next);
        CallSucceedsIff(versions, w, after.(version := Some(next)), tried + {version}, v);
        ServiceOfMore(versions, w, n, m, tried, version, next, v);
      } else {
        ServedAtOnce(versions, w, n, m, tried, version);
      }
    }
    if SomeService(versions, w, n, m, tried, version, v) {
      var used := ServiceIsCourse(versions, w, n, m, tried, version, v);
      if |used| > 1 {
        CallSucceedsIff(versions, w, after.(version := Some(used[1])), tried + {version}, v);
      }
    }
  }

  lemma ServedAtOnce(versions: Versions, w: World, n: nat, m: nat, tried: set<string>, version: string)
    requires w.writable(n) && Serves(w.answers(m))
    ensures SomeService(versions, w, n, m, tried, version, version)
  {
    hide Serves;
    var used := [version];
    assert ServedBy(versions, w, n, m, tried, used) && used[0] == version && used[|used| - 1] == version;
  }

  /** A legacy call is one request without an envelope; it succeeds exactly when that is served in full. */
  lemma LegacyCallIsExact(versions: Versions, w: World, s: Session)
    requires s.era != Some(Modern)
    ensures var end := CallLoop(versions, w, s, {});
      && (end.failure.None? <==> w.writable(s.sends) && Serves(w.answers(s.waits)))
      && s.log + [Request(None)] <= end.session.log
      && end.session.era == s.era && end.session.version == s.version
  {}

  /** The kind of a failed call, told by what happened last; only a call that timed out is cancelled. */
  predicate CallFailureFits(w: World, end: End) {
    end.failure.Some? ==>
      var s := end.session;
      && s.log != []
      && (end.failure.value.TimeoutError? <==> s.log[|s.log| - 1].Cancellation?)
      && (end.failure.value.TransportError? <==> !s.log[|s.log| - 1].Cancellation? && ChannelFailed(w, s))
      && (end.failure.value.VersionError? <==>
            && s.era == Some(Modern) && s.log[|s.log| - 1].Heard?
            && s.log[|s.log| - 1].body.error.Some? && s.log[|s.log| - 1].body.error.value.code == Some(-32022))
  }

  lemma {:induction false} FailedCallFits(versions: Versions, w: World, s: Session, tried: set<string>)
    requires s.era == Some(Modern) ==>
      s.version.Some? && s.version.value in versions.modern && s.version.value !in tried
    ensures CallFailureFits(w, CallLoop(versions, w, s, tried))
    decreases (set x | x in versions.modern) - tried
  {
    hide CallFailureFits;
    var reply := w.answers(s.waits);
    if w.writable(s.sends) && Refuses(reply) && s.era == Some(Modern)
      && FirstShared(versions.modern, reply.body.error.value.supported, tried + {s.version.value}).Some?
    {
      var next := FirstShared(versions.modern, reply.body.error.value.supported, tried + {s.version.value});
      assert s.version.value in (set x | x in versions.modern) - tried;
      FailedCallFits(
        versions, w, Waited(Sent(s, Request(s.version)), reply).(version := next), tried + {s.version.value});
    } else {
      CallFailsHere(versions, w, s, tried);
    }
  }

  lemma CallFailsHere(versions: Versions, w: World, s: Session, tried: set<string>)
    requires s.era == Some(Modern) ==>
      s.version.Some? && s.version.value in versions.modern && s.version.value !in tried
    requires w.writable(s.sends) && Refuses(w.answers(s.waits)) && s.era == Some(Modern) ==>
      FirstShared(versions.modern, w.answers(s.waits).body.error.value.supported, tried + {s.version.value}).None?
    ensures CallFailureFits(w, CallLoop(versions, w, s, tried))
  {
    hide FirstShared, Envelope;
    if !w.writable(s.sends) || !w.answers(s.waits).Said? {
      hide IsUnsupported;
    }
  }
}
