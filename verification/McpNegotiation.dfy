/** Detection of a server's protocol era: the modern probe, the legacy handshake, and the way back. */
module McpNegotiation {
  import opened Text

  const UNSUPPORTED_PROTOCOL_VERSION := -32022
  const RECOGNIZED_MODERN_ERRORS := {-32020, -32021, UNSUPPORTED_PROTOCOL_VERSION}

  datatype Era = Modern | Legacy

  datatype ResultType = Complete | InputRequired | Unrecognized

  /** The parts of a response that the negotiation reads; `supported` is the list inside the error data. */
  datatype RpcError = RpcError(code: Option<int>, supported: seq<string>)

  datatype ResultBody = ResultBody(
    supportedVersions: Option<seq<string>>, resultType: ResultType, protocolVersion: Option<string>)

  /** A result that is no JSON object is `None`. */
  datatype Body = Body(error: Option<RpcError>, result: Option<ResultBody>)

  /** What a wait can end with: nothing in time, a broken channel, or a message. */
  datatype Reply = Silence | Lost | Said(body: Body)

  /** What the server and its pipes do: the n-th write goes through or not, the n-th wait ends so. */
  datatype World = World(writable: nat -> bool, answers: nat -> Reply)

  datatype Versions = Versions(modern: seq<string>, legacy: seq<string>)

  datatype Failure = TransportError | TimeoutError | VersionError | ProtocolError

  datatype Line =
    | Probe(version: string) | Initialize(offered: string) | Initialized | Heard(body: Body)
    | Request(envelope: Option<string>) | Cancellation

  /** The fields of the client, the positions in the world, and the traffic so far. */
  datatype Session = Session(
    era: Option<Era>, version: Option<string>, legacyMode: bool, sends: nat, waits: nat, log: seq<Line>)

  predicate IsUnsupported(body: Body) {
    body.error.Some? && body.error.value.code == Some(UNSUPPORTED_PROTOCOL_VERSION)
  }

  predicate IsDiscovery(body: Body) {
    body.result.Some? && body.result.value.supportedVersions.Some?
  }

  predicate IsModernSignal(body: Body) {
    IsDiscovery(body) || IsUnsupported(body)
  }

  /** `next((v for v in versions if v in supported and v not in tried), None)`. */
  function FirstShared(versions: seq<string>, supported: seq<string>, tried: set<string>): (v: Option<string>)
    ensures v.Some? ==> v.value in versions && v.value in supported && v.value !in tried
    ensures v.None? ==> forall x :: x in versions && x in supported ==> x in tried
  {
    if versions == [] then None
    else if versions[0] in supported && versions[0] !in tried then Some(versions[0])
    else FirstShared(versions[1..], supported, tried)
  }

  /** `_issue`: one line is written, or the channel fails. */
  function Sent(s: Session, line: Line): Session {
    s.(sends := s.sends + 1, log := s.log + [line])
  }

  /** `_await`: one wait ends. */
  function Waited(s: Session, reply: Reply): Session {
    s.(waits := s.waits + 1, log := if reply.Said? then s.log + [Heard(reply.body)] else s.log)
  }

  datatype End = End(session: Session, failure: Option<Failure>)

  function Fails(s: Session, failure: Failure): End {
    End(s, Some(failure))
  }

  /** `_adopt_modern`. */
  function AdoptModern(versions: Versions, s: Session, result: ResultBody, requested: string): End
    requires result.supportedVersions.Some?
  {
    var supported := result.supportedVersions.value;
    var chosen :=
      if requested in supported then Some(requested) else FirstShared(versions.modern, supported, {});
    if result.resultType != Complete then Fails(s, ProtocolError)
    else if chosen.None? then Fails(s, VersionError)
    else End(s.(era := Some(Modern), version := chosen), None)
  }

  /** One round of the probe loop in `_negotiate` and everything after it. */
  function ProbeLoop(
      versions: Versions, w: World, s: Session, allowLegacy: bool, version: string, tried: set<string>): End
    requires version in versions.modern && version !in tried
    decreases if allowLegacy then 3 else 1, (set v | v in versions.modern) - tried
  {
    var tried' := tried + {version};
    var s1 := Sent(s, Probe(version));
    if !w.writable(s.sends) then Fails(s1, TransportError) else
      var reply := w.answers(s1.waits);
      var s2 := Waited(s1, reply);
      match reply
      case Lost => Fails(s2, TransportError)
      case Silence =>
        if allowLegacy && versions.legacy != [] then InitializeLegacy(versions, w, s2, true)
        else Fails(s2, TimeoutError)
      case Said(body) =>
        if body.error.None? && IsDiscovery(body) then AdoptModern(versions, s2, body.result.value, version)
        else if IsUnsupported(body) then
          var retry := FirstShared(versions.modern, body.error.value.supported, tried');
          if retry.None? then Fails(s2, VersionError)
          else
            assert version in (set v | v in versions.modern) - tried;
            ProbeLoop(versions, w, s2, false, retry.value, tried')
        else if body.error.Some? && body.error.value.code.Some?
                && body.error.value.code.value in RECOGNIZED_MODERN_ERRORS then
          Fails(s2, ProtocolError)
        else if allowLegacy && versions.legacy != [] then InitializeLegacy(versions, w, s2, false)
        else Fails(s2, ProtocolError)
  }

  /** `_initialize_legacy`; with a probe still pending, a refused handshake can lead back to the modern era. */
  function InitializeLegacy(versions: Versions, w: World, s: Session, pendingProbe: bool): End
    requires versions.legacy != [] && (pendingProbe ==> versions.modern != [])
    decreases 2, set v | v in versions.modern
  {
    var s1 := Sent(s.(legacyMode := true), Initialize(versions.legacy[0]));
    if !w.writable(s.sends) then Fails(s1, TransportError) else
      var reply := w.answers(s1.waits);
      var s2 := Waited(s1, reply);
      match reply
      case Lost => Fails(s2, TransportError)
      case Silence => Fails(s2, TimeoutError)
      case Said(body) =>
        if body.error.Some? then
          if !pendingProbe then Fails(s2, ProtocolError) else
            var late := w.answers(s2.waits);
            var s3 := Waited(s2, late);
            (match late
             case Lost => Fails(s3, TransportError)
             case Said(lateBody) =>
               if IsModernSignal(lateBody) then
                 ProbeLoop(versions, w, s3.(legacyMode := false), false, versions.modern[0], {})
               else Fails(s3, ProtocolError)
             case Silence => Fails(s3, ProtocolError))
        else if body.result.None? || body.result.value.resultType != Complete then Fails(s2, ProtocolError)
        else
          var version := body.result.value.protocolVersion;
          if version.None? || version.value !in versions.legacy then Fails(s2, VersionError)
          else End(Sent(s2.(era := Some(Legacy), version := version), Initialized), None)
  }

  /** `_negotiate` with `allow_legacy=True`, as a launch calls it. */
  function Negotiate(versions: Versions, w: World, s: Session): End
    requires versions.modern != [] || versions.legacy != []
  {
    if versions.modern == [] then InitializeLegacy(versions, w, s, false)
    else ProbeLoop(versions, w, s, true, versions.modern[0], {})
  }

  // ----- Properties -----

  /** The versions probed for in a stretch of traffic. */
  function Probed(log: seq<Line>): seq<string> {
    if log == [] then []
    else (if log[0].Probe? then [log[0].version] else []) + Probed(log[1..])
  }

  lemma {:induction false} ProbedConcat(a: seq<Line>, b: seq<Line>)
    ensures Probed(a + b) == Probed(a) + Probed(b)
  {
    hide Probed;
    if a == [] {
      assert a + b == b;
      NoProbed();
    } else {
      assert a == [a[0]] + a[1..] && a + b == [a[0]] + (a[1..] + b);
      FirstProbed(a[0], a[1..]);
      FirstProbed(a[0], a[1..] + b);
      ProbedConcat(a[1..], b);
    }
  }

  lemma NoProbed()
    ensures Probed([]) == []
  {}

  lemma {:induction false} FirstProbed(line: Line, rest: seq<Line>)
    ensures Probed([line] + rest) == (if line.Probe? then [line.version] else []) + Probed(rest)
  {
    assert ([line] + rest)[1..] == rest;
  }

  /** No version twice, none from `tried`, all of them modern versions of the client. */
  ghost predicate FreshProbes(probes: seq<string>, versions: Versions, tried: set<string>) {
    && (forall i :: 0 <= i < |probes| ==> probes[i] in versions.modern && probes[i] !in tried)
    && (forall i, j :: 0 <= i < j < |probes| ==> probes[i] != probes[j])
  }

  ghost predicate NoInitialize(log: seq<Line>) {
    forall i :: 0 <= i < |log| ==> !log[i].Initialize?
  }

  /** Agreement on success, silence about the era on failure. */
  ghost predicate Settled(versions: Versions, before: Session, end: End) {
    var s := end.session;
    match end.failure
    case Some(_) => s.era == before.era && s.version == before.version
    case None =>
      && s.version.Some? && s.era.Some?
      && (s.legacyMode <==> s.era == Some(Legacy))
      && (s.era == Some(Modern) ==>
            && s.log != [] && s.log[|s.log| - 1].Heard? && IsDiscovery(s.log[|s.log| - 1].body)
            && s.version.value in versions.modern
            && s.version.value in s.log[|s.log| - 1].body.result.value.supportedVersions.value)
      && (s.era == Some(Legacy) ==>
            && |s.log| >= 2 && s.log[|s.log| - 1] == Initialized && s.log[|s.log| - 2].Heard?
            && s.version.value in versions.legacy
            && s.log[|s.log| - 2].body.result.Some?
            && s.log[|s.log| - 2].body.result.value.protocolVersion == s.version)
  }

  /** What a function that only extends the log has added to it. */
  ghost function Added(before: Session, after: Session): seq<Line>
    requires before.log <= after.log
  {
    after.log[|before.log|..]
  }

  lemma ProbedOne(line: Line)
    ensures Probed([line]) == if line.Probe? then [line.version] else []
  {
    assert [line][1..] == [];
  }

  lemma AddedBy(before: Session, middle: Session, after: Session)
    requires before.log <= middle.log <= after.log
    ensures Added(before, after) == Added(before, middle) + Added(middle, after)
    ensures Probed(Added(before, after)) == Probed(Added(before, middle)) + Probed(Added(middle, after))
  {
    ProbedConcat(Added(before, middle), Added(middle, after));
    assert Added(before, after) == Added(before, middle) + Added(middle, after);
  }

  lemma ProbeTraffic(s: Session, version: string, reply: Reply)
    ensures var s' := Waited(Sent(s, Probe(version)), reply);
      && s.log <= Sent(s, Probe(version)).log <= s'.log
      && Probed(Added(s, Sent(s, Probe(version)))) == Probed(Added(s, s')) == [version]
      && NoInitialize(Added(s, s'))
  {
    var s1 := Sent(s, Probe(version));
    var s' := Waited(s1, reply);
    assert Added(s, s1) == [Probe(version)];
    ProbedOne(Probe(version));
    if reply.Said? {
      assert Added(s1, s') == [Heard(reply.body)];
      ProbedOne(Heard(reply.body));
    } else {
      assert Added(s1, s') == [];
    }
    AddedBy(s, s1, s');
  }

  /** Adopting the modern era writes nothing and picks a version that both sides named. */
  lemma AdoptModernSettles(versions: Versions, before: Session, s: Session, body: Body, requested: string)
    requires IsDiscovery(body) && requested in versions.modern
    requires s.log != [] && s.log[|s.log| - 1] == Heard(body)
    requires s.era == before.era && s.version == before.version
    ensures var end := AdoptModern(versions, s, body.result.value, requested);
      && end.session.log == s.log && end.session.legacyMode == s.legacyMode
      && (!s.legacyMode ==> Settled(versions, before, end))
      && (end.failure.None? ==> end.session.era == Some(Modern))
  {}

  /**
    Once the legacy fallback is ruled out, the loop only probes, each time for another modern
    version; it never says `initialize` and never touches the legacy flag.
  */
  lemma {:induction false} ModernRound(versions: Versions, w: World, s: Session, version: string, tried: set<string>)
    requires version in versions.modern && version !in tried
    ensures var end := ProbeLoop(versions, w, s, false, version, tried);
      && s.log <= end.session.log
      && NoInitialize(Added(s, end.session))
      && FreshProbes(Probed(Added(s, end.session)), versions, tried)
      && end.session.legacyMode == s.legacyMode
      && (!s.legacyMode ==> Settled(versions, s, end))
      && (end.failure.None? ==> end.session.era == Some(Modern))
    decreases (set v | v in versions.modern) - tried
  {
    hide AdoptModern, Probed;
    var tried' := tried + {version};
    var s1 := Sent(s, Probe(version));
    var reply := w.answers(s1.waits);
    var s2 := Waited(s1, reply);
    ProbeTraffic(s, version, reply);
    if w.writable(s.sends) && reply.Said? {
      if reply.body.error.None? && IsDiscovery(reply.body) {
        AdoptModernSettles(versions, s, s2, reply.body, version);
      } else if IsUnsupported(reply.body) {
        var retry := FirstShared(versions.modern, reply.body.error.value.supported, tried');
        if retry.Some? {
          assert version in (set v | v in versions.modern) - tried;
          ModernRound(versions, w, s2, retry.value, tried');
          AddedBy(s, s2, ProbeLoop(versions, w, s2, false, retry.value, tried').session);
        }
      }
    }
  }

  /** Everything the handshake can add: `initialize`, what came back, and perhaps one modern round. */
  ghost predicate LegacyRound(versions: Versions, s: Session, end: End) {
    && s.log <= end.session.log
    && var added := Added(s, end.session);
       versions.legacy != [] && added != [] && added[0] == Initialize(versions.legacy[0]) && NoInitialize(added[1..])
       && FreshProbes(Probed(added), versions, {})
  }

  lemma LegacyLine(s: Session, offered: string, reply: Reply)
    ensures var s' := Waited(Sent(s.(legacyMode := true), Initialize(offered)), reply);
      && s.log <= s'.log
      && Added(s, s')[..1] == [Initialize(offered)] && NoInitialize(Added(s, s')[1..]) && Probed(Added(s, s')) == []
  {
    var s1 := Sent(s.(legacyMode := true), Initialize(offered));
    var s' := Waited(s1, reply);
    assert Added(s, s1) == [Initialize(offered)];
    ProbedOne(Initialize(offered));
    if reply.Said? {
      assert Added(s1, s') == [Heard(reply.body)];
      ProbedOne(Heard(reply.body));
    } else {
      assert Added(s1, s') == [];
    }
    AddedBy(s, s1, s');
  }

  lemma QuietLine(s: Session, reply: Reply)
    ensures s.log <= Waited(s, reply).log
    ensures NoInitialize(Added(s, Waited(s, reply))) && Probed(Added(s, Waited(s, reply))) == []
  {
    if reply.Said? {
      assert Added(s, Waited(s, reply)) == [Heard(reply.body)];
      ProbedOne(Heard(reply.body));
    } else {
      assert Added(s, Waited(s, reply)) == [];
    }
  }

  /** A stretch that begins with `initialize` may be extended by one without it. */
  lemma ExtendLegacyRound(versions: Versions, s: Session, middle: Session, end: Session)
    requires s.log <= middle.log <= end.log && versions.legacy != []
    requires Added(s, middle) != [] && Added(s, middle)[0] == Initialize(versions.legacy[0])
    requires NoInitialize(Added(s, middle)[1..])
    requires Probed(Added(s, middle)) == []
    requires NoInitialize(Added(middle, end)) && FreshProbes(Probed(Added(middle, end)), versions, {})
    ensures Added(s, end) != [] && Added(s, end)[0] == Initialize(versions.legacy[0])
    ensures NoInitialize(Added(s, end)[1..])
    ensures FreshProbes(Probed(Added(s, end)), versions, {})
  {
    hide Probed;
    AddedBy(s, middle, end);
    assert Added(s, end)[1..] == Added(s, middle)[1..] + Added(middle, end);
    assert Probed(Added(s, end)) == Probed(Added(middle, end));
  }

  lemma HandshakeTraffic(versions: Versions, w: World, s: Session, pendingProbe: bool)
    requires versions.legacy != [] && (pendingProbe ==> versions.modern != [])
    ensures LegacyRound(versions, s, InitializeLegacy(versions, w, s, pendingProbe))
  {
    hide Probed, ProbeLoop, IsModernSignal, Settled;
    var s1 := Sent(s.(legacyMode := true), Initialize(versions.legacy[0]));
    var reply := w.answers(s1.waits);
    var s2 := Waited(s1, reply);
    var end := InitializeLegacy(versions, w, s, pendingProbe);
    LegacyLine(s, versions.legacy[0], Silence);
    LegacyLine(s, versions.legacy[0], reply);
    if w.writable(s.sends) && reply.Said? {
      if reply.body.error.Some? && pendingProbe {
        LateTraffic(versions, w, s, s2);
      } else if end.failure.None? {
        assert Added(s2, end.session) == [Initialized];
        ProbedOne(Initialized);
        ExtendLegacyRound(versions, s, s2, end.session);
      }
    }
  }

  /** What the answer to the pending probe leads to when the handshake was refused. */
  function LateEnd(versions: Versions, w: World, s2: Session): End
    requires versions.modern != []
  {
    var late := w.answers(s2.waits);
    var s3 := Waited(s2, late);
    if late.Lost? then Fails(s3, TransportError)
    else if late.Said? && IsModernSignal(late.body) then
      ProbeLoop(versions, w, s3.(legacyMode := false), false, versions.modern[0], {})
    else Fails(s3, ProtocolError)
  }

  lemma LateTraffic(versions: Versions, w: World, s: Session, s2: Session)
    requires versions.modern != [] && versions.legacy != [] && s.log <= s2.log
    requires Added(s, s2) != [] && Added(s, s2)[0] == Initialize(versions.legacy[0]) && NoInitialize(Added(s, s2)[1..])
    requires Probed(Added(s, s2)) == []
    ensures LegacyRound(versions, s, LateEnd(versions, w, s2))
  {
    hide Probed, ProbeLoop, IsModernSignal, Settled;
    var late := w.answers(s2.waits);
    var s3 := Waited(s2, late);
    QuietLine(s2, late);
    AddedBy(s, s2, s3);
    ExtendLegacyRound(versions, s, s2, s3);
    if late.Said? && IsModernSignal(late.body) {
      ModernRound(versions, w, s3.(legacyMode := false), versions.modern[0], {});
      ExtendLegacyRound(versions, s, s3, LateEnd(versions, w, s2).session);
    }
  }

  lemma HandshakeSettles(versions: Versions, w: World, s: Session, pendingProbe: bool)
    requires versions.legacy != [] && (pendingProbe ==> versions.modern != [])
    ensures Settled(versions, s, InitializeLegacy(versions, w, s, pendingProbe))
  {
    hide ProbeLoop, IsModernSignal;
    var s1 := Sent(s.(legacyMode := true), Initialize(versions.legacy[0]));
    var reply := w.answers(s1.waits);
    var s2 := Waited(s1, reply);
    if w.writable(s.sends) && reply.Said? && reply.body.error.Some? && pendingProbe {
      var late := w.answers(s2.waits);
      if late.Said? && IsModernSignal(late.body) {
        ModernRound(versions, w, Waited(s2, late).(legacyMode := false), versions.modern[0], {});
      }
    }
  }

  lemma LegacyHandshake(versions: Versions, w: World, s: Session, pendingProbe: bool)
    requires versions.legacy != [] && (pendingProbe ==> versions.modern != [])
    ensures var end := InitializeLegacy(versions, w, s, pendingProbe);
      LegacyRound(versions, s, end) && Settled(versions, s, end)
  {
    HandshakeTraffic(versions, w, s, pendingProbe);
    HandshakeSettles(versions, w, s, pendingProbe);
  }

  /** The traffic of one launch: a stretch of probes, then perhaps `initialize` and a second stretch of probes. */
  ghost predicate Launch(versions: Versions, log: seq<Line>, split: nat) {
    && split <= |log|
    && NoInitialize(log[..split])
    && FreshProbes(Probed(log[..split]), versions, {})
    && (split < |log| ==>
          && versions.legacy != [] && log[split] == Initialize(versions.legacy[0]) && NoInitialize(log[split + 1..])
          && FreshProbes(Probed(log[split..]), versions, {})
          && forall i :: 0 <= i < split && log[i].Heard? ==> !IsUnsupported(log[i].body))
  }

  lemma LaunchInTwoParts(versions: Versions, s: Session, middle: Session, end: End)
    requires s.log <= middle.log <= end.session.log
    requires NoInitialize(Added(s, middle)) && FreshProbes(Probed(Added(s, middle)), versions, {})
    requires forall line :: line in Added(s, middle) && line.Heard? ==> !IsUnsupported(line.body)
    requires LegacyRound(versions, middle, end)
    ensures Launch(versions, Added(s, end.session), |Added(s, middle)|)
  {
    hide Probed, IsUnsupported;
    AddedBy(s, middle, end.session);
    var split := |Added(s, middle)|;
    assert Added(s, end.session)[..split] == Added(s, middle);
    assert Added(s, end.session)[split..] == Added(middle, end.session);
    assert Added(s, end.session)[split + 1..] == Added(middle, end.session)[1..];
  }

  /** The first probe leaves the modern era behind. */
  predicate FallsBack(versions: Versions, writable: bool, reply: Reply) {
    && versions.legacy != [] && writable && !reply.Lost?
    && (reply.Said? ==>
          var body := reply.body;
          && !(body.error.None? && IsDiscovery(body)) && !IsUnsupported(body)
          && !(body.error.Some? && body.error.value.code.Some?
               && body.error.value.code.value in RECOGNIZED_MODERN_ERRORS))
  }

  lemma FallbackUnfolds(versions: Versions, w: World, s: Session, version: string)
    requires version in versions.modern && FallsBack(versions, w.writable(s.sends), w.answers(s.waits))
    ensures ProbeLoop(versions, w, s, true, version, {})
         == InitializeLegacy(
              versions, w, Waited(Sent(s, Probe(version)), w.answers(s.waits)), w.answers(s.waits).Silence?)
  {
    hide InitializeLegacy;
  }

  lemma ProbeThenFallBack(versions: Versions, w: World, s: Session, version: string) returns (split: nat)
    requires version in versions.modern && FallsBack(versions, w.writable(s.sends), w.answers(s.waits))
    ensures var end := ProbeLoop(versions, w, s, true, version, {});
      && s.log <= end.session.log && Launch(versions, Added(s, end.session), split) && Settled(versions, s, end)
  {
    hide InitializeLegacy, ProbeLoop, Probed, Launch;
    var reply := w.answers(s.waits);
    var s2 := Waited(Sent(s, Probe(version)), reply);
    ProbeTraffic(s, version, reply);
    FallbackUnfolds(versions, w, s, version);
    LegacyHandshake(versions, w, s2, reply.Silence?);
    forall line | line in Added(s, s2) && line.Heard? ensures !IsUnsupported(line.body) {
      assert line in s2.log[|s.log|..];
      assert line == Heard(reply.body);
    }
    LaunchInTwoParts(versions, s, s2, ProbeLoop(versions, w, s, true, version, {}));
    split := |Added(s, s2)|;
  }

  lemma StayModernTraffic(versions: Versions, w: World, s: Session, version: string)
    requires version in versions.modern && !FallsBack(versions, w.writable(s.sends), w.answers(s.waits))
    ensures var end := ProbeLoop(versions, w, s, true, version, {});
      && s.log <= end.session.log
      && NoInitialize(Added(s, end.session)) && FreshProbes(Probed(Added(s, end.session)), versions, {})
  {
    hide AdoptModern, InitializeLegacy, Probed, Settled;
    var reply := w.answers(s.waits);
    var s2 := Waited(Sent(s, Probe(version)), reply);
    ProbeTraffic(s, version, reply);
    if w.writable(s.sends) && reply.Said? {
      if reply.body.error.None? && IsDiscovery(reply.body) {
        AdoptModernSettles(versions, s, s2, reply.body, version);
      } else if IsUnsupported(reply.body) {
        var retry := FirstShared(versions.modern, reply.body.error.value.supported, {} + {version});
        if retry.Some? {
          ModernRound(versions, w, s2, retry.value, {} + {version});
          AddedBy(s, s2, ProbeLoop(versions, w, s, true, version, {}).session);
        }
      }
    }
  }

  lemma StayModernSettles(versions: Versions, w: World, s: Session, version: string)
    requires version in versions.modern && !FallsBack(versions, w.writable(s.sends), w.answers(s.waits))
    requires !s.legacyMode
    ensures Settled(versions, s, ProbeLoop(versions, w, s, true, version, {}))
  {
    hide AdoptModern, InitializeLegacy;
    var reply := w.answers(s.waits);
    var s2 := Waited(Sent(s, Probe(version)), reply);
    if w.writable(s.sends) && reply.Said? {
      if reply.body.error.None? && IsDiscovery(reply.body) {
        AdoptModernSettles(versions, s, s2, reply.body, version);
      } else if IsUnsupported(reply.body) {
        var retry := FirstShared(versions.modern, reply.body.error.value.supported, {} + {version});
        if retry.Some? {
          ModernRound(versions, w, s2, retry.value, {} + {version});
        }
      }
    }
  }

  lemma FirstProbe(versions: Versions, w: World, s: Session, version: string) returns (split: nat)
    requires version in versions.modern
    ensures var end := ProbeLoop(versions, w, s, true, version, {});
      && s.log <= end.session.log && Launch(versions, Added(s, end.session), split)
      && (!s.legacyMode ==> Settled(versions, s, end))
  {
    hide ProbeLoop, Probed, FallsBack, Settled;
    if FallsBack(versions, w.writable(s.sends), w.answers(s.waits)) {
      split := ProbeThenFallBack(versions, w, s, version);
    } else {
      StayModernTraffic(versions, w, s, version);
      if !s.legacyMode {
        StayModernSettles(versions, w, s, version);
      }
      var added := Added(s, ProbeLoop(versions, w, s, true, version, {}).session);
      split := |added|;
      assert added[..split] == added;
    }
  }

  /**
    A launch says `initialize` at most once, and never after it heard that the version is
    unsupported; before and after it, no modern version is probed for twice - so there are at most
    two rounds of probes, each no longer than the list of modern versions. It succeeds only with a
    version that both sides named, and then the legacy flag tells the era; when it fails, era and
    version stay as they were.
  */
  lemma NegotiationAgrees(versions: Versions, w: World, s: Session) returns (split: nat)
    requires versions.modern != [] || versions.legacy != []
    requires !s.legacyMode
    ensures var end := Negotiate(versions, w, s);
      && s.log <= end.session.log
      && Launch(versions, Added(s, end.session), split)
      && Settled(versions, s, end)
  {
    hide InitializeLegacy, ProbeLoop, Probed;
    if versions.modern == [] {
      split := 0;
      LegacyHandshake(versions, w, s, false);
      var added := Added(s, Negotiate(versions, w, s).session);
      assert added[..0] == [] && added[0..] == added;
      NothingProbed();
    } else {
      split := FirstProbe(versions, w, s, versions.modern[0]);
    }
  }

  lemma NothingProbed()
    ensures Probed([]) == []
  {}

  /** Distinct probes from a list are no more than the list is long. */
  lemma {:induction false} FreshProbesAreFew(probes: seq<string>, versions: Versions)
    requires FreshProbes(probes, versions, {})
    ensures |probes| <= |versions.modern|
  {
    var all, seen := set v | v in versions.modern, set v | v in probes;
    DistinctCount(probes);
    ElementsAtMost(versions.modern);
    SubsetCount(seen, all);
  }

  lemma {:induction false} DistinctCount(s: seq<string>)
    requires forall i, j :: 0 <= i < j < |s| ==> s[i] != s[j]
    ensures |set v | v in s| == |s|
  {
    if s != [] {
      var init, last := s[..|s| - 1], s[|s| - 1];
      DistinctCount(init);
      assert last !in init;
      assert (set v | v in s) == (set v | v in init) + {last};
    }
  }

  lemma {:induction false} ElementsAtMost(s: seq<string>)
    ensures |set v | v in s| <= |s|
  {
    if s != [] {
      ElementsAtMost(s[1..]);
      assert (set v | v in s) == {s[0]} + set v | v in s[1..];
    }
  }

  lemma {:induction false} SubsetCount(a: set<string>, b: set<string>)
    requires a <= b
    ensures |a| <= |b|
  {
    if a != {} {
      var x :| x in a;
      SubsetCount(a - {x}, b - {x});
    }
  }

  // ----- Requests after the negotiation -----

  /** The version envelope: modern requests repeat it, legacy requests carry none. */
  function Envelope(s: Session): Option<string> {
    if s.era == Some(Modern) then s.version else None
  }

  /** `_call`: a modern server may still refuse the version, and then the next shared one is tried. */
  function CallLoop(versions: Versions, w: World, s: Session, tried: set<string>): End
    requires s.era == Some(Modern) ==>
      s.version.Some? && s.version.value in versions.modern && s.version.value !in tried
    decreases (set v | v in versions.modern) - tried
  {
    var tried' := if s.era == Some(Modern) then tried + {s.version.value} else tried;
    var s1 := Sent(s, Request(Envelope(s)));
    if !w.writable(s.sends) then Fails(s1, TransportError) else
      var reply := w.answers(s1.waits);
      var s2 := Waited(s1, reply);
      match reply
      case Lost => Fails(s2, TransportError)
      case Silence => Fails(Sent(s2, Cancellation), TimeoutError)
      case Said(body) =>
        if body.error.None? then
          if body.result.Some? && body.result.value.resultType == Complete then End(s2, None)
          else Fails(s2, ProtocolError)
        else if s.era == Some(Modern) && IsUnsupported(body) then
          var retry := FirstShared(versions.modern, body.error.value.supported, tried');
          if retry.None? then Fails(s2, VersionError)
          else
            assert s.version.value in (set v | v in versions.modern) - tried;
            CallLoop(versions, w, s2.(version := retry), tried')
        else Fails(s2, ProtocolError)
  }

  /** The envelopes of the requests in a stretch of traffic. */
  function Envelopes(log: seq<Line>): seq<Option<string>> {
    if log == [] then []
    else (if log[0].Request? then [log[0].envelope] else []) + Envelopes(log[1..])
  }

  lemma {:induction false} EnvelopesConcat(a: seq<Line>, b: seq<Line>)
    ensures Envelopes(a + b) == Envelopes(a) + Envelopes(b)
  {
    hide Envelopes;
    if a == [] {
      assert a + b == b;
      NoEnvelopes();
    } else {
      assert a == [a[0]] + a[1..] && a + b == [a[0]] + (a[1..] + b);
      FirstEnvelopes(a[0], a[1..]);
      FirstEnvelopes(a[0], a[1..] + b);
      EnvelopesConcat(a[1..], b);
    }
  }

  lemma NoEnvelopes()
    ensures Envelopes([]) == []
  {}

  lemma {:induction false} FirstEnvelopes(line: Line, rest: seq<Line>)
    ensures Envelopes([line] + rest) == (if line.Request? then [line.envelope] else []) + Envelopes(rest)
  {
    assert ([line] + rest)[1..] == rest;
  }

  lemma {:induction false} QuietEnvelopes(log: seq<Line>)
    requires forall line :: line in log ==> !line.Request?
    ensures Envelopes(log) == []
  {
    if log != [] {
      QuietEnvelopes(log[1..]);
    }
  }

  lemma RequestTraffic(s: Session, after: seq<Line>)
    requires forall line :: line in after ==> !line.Request?
    ensures Envelopes([Request(Envelope(s))] + after) == [Envelope(s)]
  {
    EnvelopesConcat([Request(Envelope(s))], after);
    QuietEnvelopes(after);
    assert [Request(Envelope(s))][1..] == [];
    QuietEnvelopes([]);
  }

  /** What one call can add. */
  ghost predicate CallTraffic(versions: Versions, s: Session, tried: set<string>, end: End) {
    && s.log <= end.session.log
    && var envelopes := Envelopes(Added(s, end.session));
       && envelopes != [] && envelopes[0] == Envelope(s)
       && (s.era != Some(Modern) ==> |envelopes| == 1)
       && (s.era == Some(Modern) ==> end.session.version == envelopes[|envelopes| - 1])
       && (s.era == Some(Modern) ==> forall i :: 0 <= i < |envelopes| ==>
             envelopes[i].Some? && envelopes[i].value in versions.modern && envelopes[i].value !in tried)
       && (forall i, j :: 0 <= i < j < |envelopes| ==> envelopes[i] != envelopes[j])
  }

  /**
    A call sends one request per version at most: a legacy call exactly one without an envelope, a
    modern call requests with pairwise different modern versions. It never changes the era, and the
    version it leaves behind is the one of its last request.
  */
  lemma {:induction false} CallsTerminate(versions: Versions, w: World, s: Session, tried: set<string>)
    requires s.era == Some(Modern) ==>
      s.version.Some? && s.version.value in versions.modern && s.version.value !in tried
    ensures var end := CallLoop(versions, w, s, tried);
      && CallTraffic(versions, s, tried, end)
      && end.session.era == s.era && end.session.legacyMode == s.legacyMode
      && (s.era != Some(Modern) ==> end.session.version == s.version)
    decreases (set v | v in versions.modern) - tried
  {
    hide CallTraffic;
    var s1 := Sent(s, Request(Envelope(s)));
    var reply := w.answers(s1.waits);
    var s2 := Waited(s1, reply);
    var end := CallLoop(versions, w, s, tried);
    var heard := if reply.Said? then [Heard(reply.body)] else [];
    assert Added(s, s2) == [Request(Envelope(s))] + heard;
    if w.writable(s.sends) && reply.Said? && reply.body.error.Some? && s.era == Some(Modern)
       && IsUnsupported(reply.body) {
      var tried' := tried + {s.version.value};
      var retry := FirstShared(versions.modern, reply.body.error.value.supported, tried');
      if retry.Some? {
        assert s.version.value in (set v | v in versions.modern) - tried;
        CallsTerminate(versions, w, s2.(version := retry), tried');
        CallAgain(versions, s, s2.(version := retry), heard, tried, end);
        return;
      }
    }
    var rest := if !w.writable(s.sends) then [] else if reply.Silence? then [Cancellation] else heard;
    assert Added(s, end.session) == [Request(Envelope(s))] + rest;
    CallOnce(versions, s, rest, tried, end);
  }

  lemma CallOnce(versions: Versions, s: Session, rest: seq<Line>, tried: set<string>, end: End)
    requires s.era == Some(Modern) ==>
      s.version.Some? && s.version.value in versions.modern && s.version.value !in tried
    requires s.log <= end.session.log && Added(s, end.session) == [Request(Envelope(s))] + rest
    requires (forall line :: line in rest ==> !line.Request?) && end.session.version == s.version
    ensures CallTraffic(versions, s, tried, end)
  {
    hide Envelopes;
    RequestTraffic(s, rest);
  }

  lemma CallAgain(versions: Versions, s: Session, again: Session, heard: seq<Line>, tried: set<string>, end: End)
    requires s.era == again.era == Some(Modern)
    requires s.version.Some? && s.version.value in versions.modern && s.version.value !in tried
    requires s.log <= again.log && Added(s, again) == [Request(Envelope(s))] + heard
    requires forall line :: line in heard ==> !line.Request?
    requires CallTraffic(versions, again, tried + {s.version.value}, end)
    ensures CallTraffic(versions, s, tried, end)
  {
    hide Envelopes;
    RequestTraffic(s, heard);
    assert Added(s, end.session) == Added(s, again) + Added(again, end.session);
    EnvelopesConcat(Added(s, again), Added(again, end.session));
  }

  /** The client's fields; the methods below are the loops that update them. */
  class StdioMcpClient {
    const versions: Versions
    const world: World
    var era: Option<Era>
    var protocolVersion: Option<string>
    var legacyMode: bool
    var sends: nat
    var waits: nat
    var log: seq<Line>

    constructor (versions: Versions, world: World)
      ensures this.versions == versions && this.world == world
      ensures Fields() == Session(None, None, false, 0, 0, [])
    {
      this.versions, this.world := versions, world;
      era, protocolVersion, legacyMode, sends, waits, log := None, None, false, 0, 0, [];
    }

    function Fields(): Session
      reads this
    {
      Session(era, protocolVersion, legacyMode, sends, waits, log)
    }

    method Issue(line: Line) returns (written: bool)
      modifies this`sends, this`log
      ensures written == world.writable(old(sends)) && Fields() == Sent(old(Fields()), line)
    {
      written := world.writable(sends);
      sends, log := sends + 1, log + [line];
    }

    method Await() returns (reply: Reply)
      modifies this`waits, this`log
      ensures reply == world.answers(old(waits)) && Fields() == Waited(old(Fields()), reply)
    {
      reply := world.answers(waits);
      waits := waits + 1;
      if reply.Said? {
        log := log + [Heard(reply.body)];
      }
    }

    method Adopt(result: ResultBody, requested: string) returns (failure: Option<Failure>)
      requires result.supportedVersions.Some?
      modifies this`era, this`protocolVersion
      ensures End(Fields(), failure) == AdoptModern(versions, old(Fields()), result, requested)
    {
      if result.resultType != Complete {
        return Some(ProtocolError);
      }
      var supported := result.supportedVersions.value;
      var chosen := if requested in supported then Some(requested) else FirstShared(versions.modern, supported, {});
      if chosen.None? {
        return Some(VersionError);
      }
      era, protocolVersion := Some(Modern), chosen;
      return None;
    }

    /** `_negotiate`: the loop over `tried`. */
    method NegotiateEra(fallback: bool) returns (failure: Option<Failure>)
      requires versions.modern != [] || (fallback && versions.legacy != [])
      modifies this
      ensures versions.modern == [] ==>
        End(Fields(), failure) == InitializeLegacy(versions, world, old(Fields()), false)
      ensures versions.modern != [] ==>
        End(Fields(), failure) == ProbeLoop(versions, world, old(Fields()), fallback, versions.modern[0], {})
      decreases if fallback then 3 else 1
    {
      if versions.modern == [] {
        failure := Handshake(false);
        return;
      }
      var version, tried, allowLegacy := versions.modern[0], {}, fallback;
      while true
        invariant version in versions.modern && version !in tried
        invariant allowLegacy ==> fallback
        invariant ProbeLoop(versions, world, old(Fields()), fallback, versions.modern[0], {})
               == ProbeLoop(versions, world, Fields(), allowLegacy, version, tried)
        decreases (set v | v in versions.modern) - tried
      {
        assert version in (set v | v in versions.modern) - tried;
        var written := Issue(Probe(version));
        if !written {
          return Some(TransportError);
        }
        var reply := Await();
        if reply.Lost? {
          return Some(TransportError);
        }
        if reply.Silence? {
          if allowLegacy && versions.legacy != [] {
            failure := Handshake(true);
            return;
          }
          return Some(TimeoutError);
        }
        var body := reply.body;
        if body.error.None? && IsDiscovery(body) {
          failure := Adopt(body.result.value, version);
          return;
        }
        if IsUnsupported(body) {
          var retry := FirstShared(versions.modern, body.error.value.supported, tried + {version});
          if retry.None? {
            return Some(VersionError);
          }
          version, tried, allowLegacy := retry.value, tried + {version}, false;
          continue;
        }
        if body.error.Some? && body.error.value.code.Some? && body.error.value.code.value in RECOGNIZED_MODERN_ERRORS {
          return Some(ProtocolError);
        }
        if !(allowLegacy && versions.legacy != []) {
          return Some(ProtocolError);
        }
        failure := Handshake(false);
        return;
      }
    }

    /** `_initialize_legacy`. */
    method Handshake(pendingProbe: bool) returns (failure: Option<Failure>)
      requires versions.legacy != [] && (pendingProbe ==> versions.modern != [])
      modifies this
      ensures End(Fields(), failure) == InitializeLegacy(versions, world, old(Fields()), pendingProbe)
      decreases 2
    {
      legacyMode := true;
      var written := Issue(Initialize(versions.legacy[0]));
      if !written {
        return Some(TransportError);
      }
      var reply := Await();
      match reply {
        case Lost => return Some(TransportError);
        case Silence => return Some(TimeoutError);
        case Said(body) =>
          if body.error.Some? {
            if pendingProbe {
              var late := Await();
              if late.Lost? {
                return Some(TransportError);
              }
              if late.Said? && IsModernSignal(late.body) {
                legacyMode := false;
                failure := NegotiateEra(false);
                return;
              }
            }
            return Some(ProtocolError);
          }
          if body.result.None? || body.result.value.resultType != Complete {
            return Some(ProtocolError);
          }
          var version := body.result.value.protocolVersion;
          if version.None? || version.value !in versions.legacy {
            return Some(VersionError);
          }
          era, protocolVersion := Some(Legacy), version;
          var _ := Issue(Initialized);
          return None;
      }
    }

    /** `_call`. */
    method Call() returns (failure: Option<Failure>)
      requires era == Some(Modern) ==> protocolVersion.Some? && protocolVersion.value in versions.modern
      modifies this
      ensures End(Fields(), failure) == CallLoop(versions, world, old(Fields()), {})
    {
      var tried: set<string> := {};
      while true
        invariant era == old(era)
        invariant era == Some(Modern) ==>
          protocolVersion.Some? && protocolVersion.value in versions.modern && protocolVersion.value !in tried
        invariant CallLoop(versions, world, old(Fields()), {}) == CallLoop(versions, world, Fields(), tried)
        decreases (set v | v in versions.modern) - tried
      {
        ghost var before := tried;
        var envelope := Envelope(Fields());
        if era == Some(Modern) {
          tried := tried + {protocolVersion.value};
        }
        var written := Issue(Request(envelope));
        if !written {
          return Some(TransportError);
        }
        var reply := Await();
        if reply.Lost? {
          return Some(TransportError);
        }
        if reply.Silence? {
          var _ := Issue(Cancellation);
          return Some(TimeoutError);
        }
        var body := reply.body;
        if body.error.None? {
          if body.result.Some? && body.result.value.resultType == Complete {
            return None;
          }
          return Some(ProtocolError);
        }
        if era == Some(Modern) && IsUnsupported(body) {
          var retry := FirstShared(versions.modern, body.error.value.supported, tried);
          if retry.None? {
            return Some(VersionError);
          }
          assert protocolVersion.value in (set v | v in versions.modern) - before;
          protocolVersion := retry;
        } else {
          return Some(ProtocolError);
        }
      }
    }
  }
}
