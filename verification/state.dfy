/** The simulation record shared by the controller and the engine: the
    configuration, the pathways, the activation records keyed by pathway
    name, the statistics, and the primitive operations the controller calls
    back into (`activateAlternativePathway`, `deactivateAlternativePathway`,
    `moveTransactionsToAlternative`, `recordGlitch`), plus the side-effect
    free headline classifier. */
module State {
  import opened Js
  import opened Pathways

  // ----- configuration -----------------------------------------------------

  datatype SeverityLevels = SeverityLevels(
    warningThreshold: Option<int>,
    criticalThreshold: Option<int>,
    percentageToMoveCritical: Option<real>)

  datatype GlitchCondition = GlitchCondition(
    percentageToMove: Option<real>,
    maxTransactionsToMoveInOneGo: Option<int>)

  /** Strategy names are strings; "" stands for an absent (falsy) name. */
  datatype AdaptiveStrategy = AdaptiveStrategy(
    enabled: bool,
    defaultStrategy: string,
    onCritical: string)

  datatype NormalCondition = NormalCondition(
    deactivateThresholdMainQueue: Option<int>,
    minActiveDurationTicksAlternative: Option<int>)

  datatype SmartCooldown = SmartCooldown(minCoolDownTicks: Option<int>)

  datatype CircuitBreaker = CircuitBreaker(
    enabled: bool,
    criticalAltQueueThreshold: Option<int>,
    recoveryCheckIntervalTicks: Option<int>,
    recoveryThresholdQueueSize: Option<int>)

  /** `eppControllerSettings`; an absent sub-section is the all-absent record. */
  datatype ControllerSettings = ControllerSettings(
    severity: SeverityLevels,
    glitch: GlitchCondition,
    adaptive: AdaptiveStrategy,
    normal: NormalCondition,
    cooldown: SmartCooldown,
    breaker: CircuitBreaker)

  datatype Storm = Storm(startTick: Option<int>, duration: Option<int>, multiplier: Option<real>)

  /** A degradation event; target "" stands for an absent (falsy) target. */
  datatype Degradation = Degradation(
    target: string,
    startTick: Option<int>,
    duration: Option<int>,
    factor: Option<real>)

  datatype Params = Params(
    totalSimulationTicks: Option<int>,
    main: PathwayConfig,
    alternatives: seq<PathwayConfig>,
    settings: ControllerSettings,
    storm: Option<Storm>,
    degradation: Option<Degradation>)

  // ----- run-time state ----------------------------------------------------

  /** One entry of `alternativePathwaysState`. */
  datatype ActState = ActState(isActive: bool, activationTick: int, deactivatedTick: Stamp)

  /** The controller's own fields: breaker flag, recovery ticker and the
      persistent round-robin cursor `lastDistributionIndex`. */
  datatype Controller = Controller(tripped: bool, recoveryTicker: int, cursor: nat)

  /** One entry of `tickMovements`. */
  datatype Movement = Movement(to: string, count: nat)

  datatype Stats = Stats(
    generated: nat,
    processedMain: nat,
    processedAlt: map<string, nat>,
    glitchCount: nat,
    pathSwitches: nat,
    maxMainQueue: nat)

  datatype Headline =
    | Standby | StartingUp
    | BreakerTripped | TransactionStorm | PathwaySabotage
    | CriticalGlitch | GlitchWarning | NetworkNominal

  /** Congestion severity of the main queue ('none', 'warning', 'critical'). */
  datatype Level = NoGlitch | Warning | Critical

  datatype Sim = Sim(
    params: Params,
    tick: int,
    running: bool,
    main: Pathway,
    alts: seq<Pathway>,
    act: map<string, ActState>,
    degraded: map<string, Num>,
    ctl: Controller,
    stats: Stats,
    movements: seq<Movement>,
    headline: Headline)

  // ----- well-formedness and bookkeeping -----------------------------------

  predicate DistinctNames(alts: seq<Pathway>) {
    forall i, j :: 0 <= i < j < |alts| ==> alts[i].name != alts[j].name
  }

  /** Every alternative has an activation record and a processed counter. */
  predicate Wf(s: Sim) {
    && DistinctNames(s.alts)
    && (forall i :: 0 <= i < |s.alts| ==> s.alts[i].name in s.act && s.alts[i].name in s.stats.processedAlt)
  }

  function Names(alts: seq<Pathway>): (r: seq<string>)
    ensures |r| == |alts|
    ensures forall i :: 0 <= i < |alts| ==> r[i] == alts[i].name
  {
    seq(|alts|, i requires 0 <= i < |alts| => alts[i].name)
  }

  /** Total length of the alternatives' queues. */
  function AltQueued(alts: seq<Pathway>): nat {
    if |alts| == 0 then 0 else |alts[0].queue| + AltQueued(alts[1..])
  }

  /** All alternative queues, concatenated in configuration order. */
  function Concat(alts: seq<Pathway>): seq<Tx> {
    if |alts| == 0 then [] else alts[0].queue + Concat(alts[1..])
  }

  function Get(m: map<string, nat>, k: string): nat {
    if k in m then m[k] else 0
  }

  /** Sum of the counters of the given names. */
  function SumOver(names: seq<string>, m: map<string, nat>): nat {
    if |names| == 0 then 0 else Get(m, names[0]) + SumOver(names[1..], m)
  }

  /** Every transaction waiting in some queue. */
  function AllQueued(s: Sim): seq<Tx> {
    s.main.queue + Concat(s.alts)
  }

  function Queued(s: Sim): nat {
    |s.main.queue| + AltQueued(s.alts)
  }

  function Processed(s: Sim): nat {
    s.stats.processedMain + SumOver(Names(s.alts), s.stats.processedAlt)
  }

  /** Nothing is lost or invented: every generated transaction is either
      queued somewhere or counted as processed by exactly one pathway. */
  predicate Conserved(s: Sim) {
    Queued(s) + Processed(s) == s.stats.generated
  }

  lemma {:induction false} AltQueuedUpdate(alts: seq<Pathway>, i: int, p: Pathway)
    requires 0 <= i < |alts|
    ensures AltQueued(alts[i := p]) + |alts[i].queue| == AltQueued(alts) + |p.queue|
    decreases |alts|
  {
    if i > 0 {
      assert alts[i := p][1..] == alts[1..][i - 1 := p];
      AltQueuedUpdate(alts[1..], i - 1, p);
    }
  }

  /** Appending to one alternative's queue adds exactly those transactions
      to the concatenation of all alternative queues. */
  lemma {:induction false} ConcatAppend(alts: seq<Pathway>, i: int, extra: seq<Tx>)
    requires 0 <= i < |alts|
    ensures multiset(Concat(alts[i := alts[i].(queue := alts[i].queue + extra)]))
            == multiset(Concat(alts)) + multiset(extra)
    decreases |alts|
  {
    var u := alts[i := alts[i].(queue := alts[i].queue + extra)];
    assert Concat(alts) == alts[0].queue + Concat(alts[1..]);
    assert Concat(u) == u[0].queue + Concat(u[1..]);
    if i == 0 {
      assert u[1..] == alts[1..];
    } else {
      assert u[1..] == alts[1..][i - 1 := alts[1..][i - 1].(queue := alts[1..][i - 1].queue + extra)];
      ConcatAppend(alts[1..], i - 1, extra);
    }
  }

  /** Counters of names outside the list do not contribute. */
  lemma {:induction false} SumOverOther(names: seq<string>, m: map<string, nat>, k: string, v: nat)
    requires k !in names
    ensures SumOver(names, m[k := v]) == SumOver(names, m)
    decreases |names|
  {
    if |names| > 0 {
      SumOverOther(names[1..], m, k, v);
    }
  }

  /** Adding to the counter of a name listed exactly once adds to the sum. */
  lemma {:induction false} SumOverAdd(names: seq<string>, m: map<string, nat>, i: int, d: nat)
    requires 0 <= i < |names|
    requires forall a, b :: 0 <= a < b < |names| ==> names[a] != names[b]
    ensures SumOver(names, m[names[i] := Get(m, names[i]) + d]) == SumOver(names, m) + d
    decreases |names|
  {
    var k := names[i];
    if i == 0 {
      assert k !in names[1..] by {
        forall j | 0 <= j < |names[1..]|
          ensures names[1..][j] != k
        {
          assert names[j + 1] != names[0];
        }
      }
      SumOverOther(names[1..], m, k, Get(m, k) + d);
    } else {
      assert names[1..][i - 1] == k;
      SumOverAdd(names[1..], m, i - 1, d);
    }
  }

  /** The first alternative with the given name (JavaScript `Array.find`). */
  function FindAlt(alts: seq<Pathway>, name: string): (r: Option<nat>)
    ensures r.Some? ==> r.value < |alts| && alts[r.value].name == name
                        && forall j :: 0 <= j < r.value ==> alts[j].name != name
    ensures r.None? ==> forall j :: 0 <= j < |alts| ==> alts[j].name != name
  {
    if |alts| == 0 then None
    else if alts[0].name == name then Some(0)
    else match FindAlt(alts[1..], name)
      case None => None
      case Some(j) => Some(j + 1)
  }

  /** Distinct names: the alternative found for a name is the only one. */
  lemma {:induction false} FindAltUnique(alts: seq<Pathway>, i: int)
    requires DistinctNames(alts) && 0 <= i < |alts|
    ensures FindAlt(alts, alts[i].name) == Some(i)
  {}

  // ----- primitives the controller calls -----------------------------------

  /** `recordGlitch`. */
  function RecordGlitch(s: Sim): (r: Sim)
    ensures r == s.(stats := r.stats)
    ensures r.stats == s.stats.(glitchCount := s.stats.glitchCount + 1)
  {
    s.(stats := s.stats.(glitchCount := s.stats.glitchCount + 1))
  }

  /** `activateAlternativePathway`: a known, inactive pathway becomes active
      as of the current tick and the switch counter grows; otherwise nothing
      happens. */
  function Activate(s: Sim, name: string): (r: Sim)
    ensures r == s.(act := r.act, stats := r.stats)
    ensures r.act.Keys == s.act.Keys
    ensures forall k :: k in s.act && k != name ==> r.act[k] == s.act[k]
    ensures !(name in s.act && !s.act[name].isActive) ==> r == s
    ensures name in s.act && !s.act[name].isActive ==>
              && r.act[name].isActive
              && r.act[name].activationTick == s.tick
              && r.act[name].deactivatedTick == s.act[name].deactivatedTick
              && r.stats == s.stats.(pathSwitches := s.stats.pathSwitches + 1)
  {
    if name in s.act && !s.act[name].isActive then
      var st := s.act[name].(isActive := true, activationTick := s.tick);
      s.(act := s.act[name := st], stats := s.stats.(pathSwitches := s.stats.pathSwitches + 1))
    else
      s
  }

  /** `deactivateAlternativePathway`: an active pathway becomes inactive and
      remembers the current tick; otherwise nothing happens. */
  function Deactivate(s: Sim, name: string): (r: Sim)
    ensures r == s.(act := r.act)
    ensures r.act.Keys == s.act.Keys
    ensures forall k :: k in s.act && k != name ==> r.act[k] == s.act[k]
    ensures !(name in s.act && s.act[name].isActive) ==> r == s
    ensures name in s.act && s.act[name].isActive ==>
              && !r.act[name].isActive
              && r.act[name].deactivatedTick == At(s.tick)
              && r.act[name].activationTick == s.act[name].activationTick
  {
    if name in s.act && s.act[name].isActive then
      s.(act := s.act[name := s.act[name].(isActive := false, deactivatedTick := At(s.tick))])
    else
      s
  }

  /** Activating twice in the same tick is the same as activating once. */
  lemma {:induction false} ActivateIdempotent(s: Sim, name: string)
    ensures Activate(Activate(s, name), name) == Activate(s, name)
  {}

  /** Deactivating right after an activation in the same tick leaves the
      pathway inactive with both stamps set to the current tick. */
  lemma {:induction false} ActivateThenDeactivate(s: Sim, name: string)
    requires name in s.act && !s.act[name].isActive
    ensures var r := Deactivate(Activate(s, name), name);
      && !r.act[name].isActive
      && r.act[name].activationTick == s.tick
      && r.act[name].deactivatedTick == At(s.tick)
      && r.stats.pathSwitches == s.stats.pathSwitches + 1
  {}

  /** `moveTransactionsToAlternative`: moves `min(count, main length)`
      transactions from the head of the main queue to the tail of the named
      alternative, in order, and logs the move when it is non-empty.
      Returns the number moved. */
  function Move(s: Sim, count: int, target: string): (r: (Sim, int))
    ensures FindAlt(s.alts, target).None? || count <= 0 ==> r == (s, 0)
    ensures FindAlt(s.alts, target).Some? && count > 0 ==>
              var i := FindAlt(s.alts, target).value;
              var n := Min(count, |s.main.queue|);
              && r.1 == n
              && r.0.main == s.main.(queue := s.main.queue[n..])
              && |r.0.alts| == |s.alts|
              && r.0.alts[i] == s.alts[i].(queue := s.alts[i].queue + s.main.queue[..n])
              && (forall j :: 0 <= j < |s.alts| && j != i ==> r.0.alts[j] == s.alts[j])
              && r.0.movements == s.movements + (if n > 0 then [Movement(target, n)] else [])
              && r.0 == s.(main := r.0.main, alts := r.0.alts, movements := r.0.movements)
    ensures 0 <= r.1 <= |s.main.queue|
    ensures Names(r.0.alts) == Names(s.alts)
    ensures Queued(r.0) == Queued(s)
    ensures multiset(AllQueued(r.0)) == multiset(AllQueued(s))
  {
    match FindAlt(s.alts, target)
    case None => (s, 0)
    case Some(i) =>
      if count <= 0 then (s, 0)
      else
        var sh := ShiftTransactions(s.main, count);
        var moved := sh.1;
        var t := s.alts[i].(queue := s.alts[i].queue + moved);
        var log := if |moved| > 0 then s.movements + [Movement(target, |moved|)] else s.movements;
        var r := s.(main := sh.0, alts := s.alts[i := t], movements := log);
        TransferConserves(s.main.queue, s.alts, i, moved, sh.0.queue);
        (r, |moved|)
  }

  /** Moving a split-off head of the main queue onto alternative `i` keeps
      every transaction, and the names of the alternatives. */
  lemma {:induction false} TransferConserves(main: seq<Tx>, alts: seq<Pathway>, i: int, moved: seq<Tx>, rest: seq<Tx>)
    requires 0 <= i < |alts|
    requires moved + rest == main
    ensures var t := alts[i].(queue := alts[i].queue + moved);
      && Names(alts[i := t]) == Names(alts)
      && |rest| + AltQueued(alts[i := t]) == |main| + AltQueued(alts)
      && multiset(rest + Concat(alts[i := t])) == multiset(main + Concat(alts))
  {
    var t := alts[i].(queue := alts[i].queue + moved);
    AltQueuedUpdate(alts, i, t);
    ConcatAppend(alts, i, moved);
    assert Names(alts[i := t]) == Names(alts);
    assert multiset(main) == multiset(moved) + multiset(rest);
  }

  /** A requested move larger than the main queue drains it completely and
      logs exactly the number that was there. */
  lemma {:induction false} MoveClamped(s: Sim, count: int, target: string)
    requires FindAlt(s.alts, target).Some?
    requires count >= |s.main.queue| > 0
    ensures var r := Move(s, count, target);
      && r.1 == |s.main.queue|
      && r.0.main.queue == []
      && r.0.movements == s.movements + [Movement(target, |s.main.queue|)]
  {}

  // ----- readiness and severity --------------------------------------------

  /** An alternative is ready once active and past its activation delay. */
  predicate Ready(s: Sim, i: int)
    requires Wf(s) && 0 <= i < |s.alts|
    ensures Ready(s, i) ==> s.act[s.alts[i].name].isActive
    ensures IntOr(s.alts[i].config.activationDelay, 0) == 0 && s.act[s.alts[i].name].isActive ==>
              (Ready(s, i) <==> s.act[s.alts[i].name].activationTick <= s.tick)
  {
    var st := s.act[s.alts[i].name];
    st.isActive && s.tick >= st.activationTick + IntOr(s.alts[i].config.activationDelay, 0)
  }

  /** The controller's classification of the main queue length `q`; an
      absent or zero threshold is never reached. */
  function SeverityOf(q: int, sv: SeverityLevels): (l: Level)
    ensures l == Critical <==> Reached(q, IntOrInf(sv.criticalThreshold))
    ensures l == Warning <==> !Reached(q, IntOrInf(sv.criticalThreshold))
                              && Reached(q, IntOrInf(sv.warningThreshold))
  {
    if Reached(q, IntOrInf(sv.criticalThreshold)) then Critical
    else if Reached(q, IntOrInf(sv.warningThreshold)) then Warning
    else NoGlitch
  }

  // ----- headline ------------------------------------------------------------

  /** The storm window `[startTick, startTick + duration)`, only when
      `startTick` is truthy; an absent duration makes the bound NaN, so the
      window is empty. */
  predicate StormWindow(p: Params, tick: int) {
    && p.storm.Some?
    && p.storm.value.startTick.Some? && p.storm.value.startTick.value != 0
    && p.storm.value.duration.Some?
    && p.storm.value.startTick.value <= tick < p.storm.value.startTick.value + p.storm.value.duration.value
  }

  /** The tick at which a degradation ends (`startTick + (duration || Infinity)`);
      None when it never ends. */
  function DegradationEnd(d: Degradation): Option<int> {
    if d.startTick.Some? && d.duration.Some? && d.duration.value != 0
    then Some(d.startTick.value + d.duration.value)
    else None
  }

  /** The degradation window as the headline sees it (the target need not
      name a configured pathway). */
  predicate DegradationWindow(p: Params, tick: int) {
    && p.degradation.Some?
    && p.degradation.value.target != ""
    && p.degradation.value.startTick.Some?
    && tick >= p.degradation.value.startTick.value
    && (DegradationEnd(p.degradation.value).None? || tick < DegradationEnd(p.degradation.value).value)
  }

  /** `_determineHeadline`: breaker, then storm, then degradation, then the
      main queue against the raw critical and warning thresholds (no
      `|| Infinity` here, so a configured 0 is reached by every queue). */
  function DetermineHeadline(s: Sim): (h: Headline)
    ensures h == BreakerTripped <==> s.ctl.tripped
    ensures h == TransactionStorm <==> !s.ctl.tripped && StormWindow(s.params, s.tick)
    ensures h == PathwaySabotage <==>
              !s.ctl.tripped && !StormWindow(s.params, s.tick) && DegradationWindow(s.params, s.tick)
    ensures h in {CriticalGlitch, GlitchWarning, NetworkNominal} <==>
              !s.ctl.tripped && !StormWindow(s.params, s.tick) && !DegradationWindow(s.params, s.tick)
    ensures h == CriticalGlitch ==> Reached(|s.main.queue|, s.params.settings.severity.criticalThreshold)
    ensures h == GlitchWarning ==>
              (Reached(|s.main.queue|, s.params.settings.severity.warningThreshold)
               && !Reached(|s.main.queue|, s.params.settings.severity.criticalThreshold))
    ensures h == NetworkNominal ==>
              (!Reached(|s.main.queue|, s.params.settings.severity.warningThreshold)
               && !Reached(|s.main.queue|, s.params.settings.severity.criticalThreshold))
  {
    var sv := s.params.settings.severity;
    var q := |s.main.queue|;
    if s.ctl.tripped then BreakerTripped
    else if StormWindow(s.params, s.tick) then TransactionStorm
    else if DegradationWindow(s.params, s.tick) then PathwaySabotage
    else if Reached(q, sv.criticalThreshold) then CriticalGlitch
    else if Reached(q, sv.warningThreshold) then GlitchWarning
    else NetworkNominal
  }

  /** With no configured zero thresholds, the headline's congestion levels
      agree with the controller's severity classification. */
  lemma {:induction false} HeadlineAgreesWithSeverity(s: Sim)
    requires !s.ctl.tripped && !StormWindow(s.params, s.tick) && !DegradationWindow(s.params, s.tick)
    requires s.params.settings.severity.criticalThreshold != Some(0)
    requires s.params.settings.severity.warningThreshold != Some(0)
    ensures var l := SeverityOf(|s.main.queue|, s.params.settings.severity);
      && (DetermineHeadline(s) == CriticalGlitch <==> l == Critical)
      && (DetermineHeadline(s) == GlitchWarning <==> l == Warning)
      && (DetermineHeadline(s) == NetworkNominal <==> l == NoGlitch)
  {}

  /** A configured critical threshold of 0 is "never" for the controller
      (`0 || Infinity`) but is reached by every queue in the headline. */
  lemma {:induction false} ZeroThresholdDisagrees(s: Sim)
    requires !s.ctl.tripped && !StormWindow(s.params, s.tick) && !DegradationWindow(s.params, s.tick)
    requires s.params.settings.severity.criticalThreshold == Some(0)
    requires s.params.settings.severity.warningThreshold.None?
    ensures DetermineHeadline(s) == CriticalGlitch
    ensures SeverityOf(|s.main.queue|, s.params.settings.severity) == NoGlitch
  {}
}
