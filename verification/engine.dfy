/** The simulation driver: construction, `run`/`stop`, the scheduled
    degradation event, arrival generation, the per-tick pipeline
    (headline and snapshot, events, controller, processing, statistics,
    arrivals, tick advance) and the tick loop with its final summary. */
module Engine {
  import opened Js
  import opened Pathways
  import opened State
  import opened Controller

  /** Name of the main pathway when the configuration gives none. */
  const MainDefaultName: string := "Jalur Utama"

  // ----- construction ------------------------------------------------------------

  predicate DistinctConfigNames(cfgs: seq<PathwayConfig>) {
    forall i, j :: 0 <= i < j < |cfgs| ==> cfgs[i].name != cfgs[j].name
  }

  function ConfigNames(cfgs: seq<PathwayConfig>): set<string> {
    set i | 0 <= i < |cfgs| :: cfgs[i].name
  }

  /** All queues empty. */
  predicate Idle(alts: seq<Pathway>) {
    forall j :: 0 <= j < |alts| ==> alts[j].queue == []
  }

  lemma {:induction false} IdleQueuesNothing(alts: seq<Pathway>)
    requires Idle(alts)
    ensures AltQueued(alts) == 0
    decreases |alts|
  {
    if |alts| > 0 {
      IdleQueuesNothing(alts[1..]);
    }
  }

  lemma {:induction false} ZeroCountersSumToZero(names: seq<string>, m: map<string, nat>)
    requires forall k :: k in m ==> m[k] == 0
    ensures SumOver(names, m) == 0
    decreases |names|
  {
    if |names| > 0 {
      ZeroCountersSumToZero(names[1..], m);
    }
  }

  /** A map giving every key the same value. */
  function Fill<V>(keys: set<string>, v: V): (m: map<string, V>)
    ensures m.Keys == keys
    ensures forall k :: k in m ==> m[k] == v
  {
    map k | k in keys :: v
  }

  /** One fresh pathway per configured alternative, in configuration order. */
  function NewAlts(cfgs: seq<PathwayConfig>): (alts: seq<Pathway>)
    ensures |alts| == |cfgs|
    ensures forall j :: 0 <= j < |cfgs| ==> alts[j] == NewPathway(cfgs[j].name, cfgs[j])
  {
    seq(|cfgs|, j requires 0 <= j < |cfgs| => NewPathway(cfgs[j].name, cfgs[j]))
  }

  /** The constructor with `_initializeStats`: every alternative starts
      inactive with activation tick 0 and deactivation tick -Infinity, every
      counter starts at 0, the breaker is clear and the cursor is 0. */
  function Init(p: Params): (s: Sim)
    ensures s.tick == 0 && !s.running && s.headline == Standby && s.movements == []
    ensures s.main == NewPathway(if p.main.name == "" then MainDefaultName else p.main.name, p.main)
    ensures s.alts == NewAlts(p.alternatives) && s.params == p
    ensures s.act == Fill(ConfigNames(p.alternatives), ActState(false, 0, Never))
    ensures s.stats == Stats(0, 0, Fill(ConfigNames(p.alternatives), 0), 0, 0, 0)
    ensures s.ctl == Controller(false, 0, 0) && s.degraded == map[]
  {
    var mainName := if p.main.name == "" then MainDefaultName else p.main.name;
    var names := ConfigNames(p.alternatives);
    Sim(p, 0, false, NewPathway(mainName, p.main), NewAlts(p.alternatives),
        Fill(names, ActState(false, 0, Never)), map[], Controller(false, 0, 0),
        Stats(0, 0, Fill(names, 0), 0, 0, 0), [], Standby)
  }

  /** With distinct configured names the constructed state satisfies the
      invariants, every queue is empty and nothing is counted yet. */
  lemma {:induction false} InitKeepsInvariants(p: Params)
    requires DistinctConfigNames(p.alternatives)
    ensures var s := Init(p);
      && Wf(s) && Conserved(s) && Queued(s) == 0
      && forall j :: 0 <= j < |s.alts| ==> s.alts[j].name == p.alternatives[j].name
  {
    var s := Init(p);
    var names := ConfigNames(p.alternatives);
    assert forall j :: 0 <= j < |s.alts| ==> s.alts[j].name == p.alternatives[j].name;
    assert forall j :: 0 <= j < |s.alts| ==> s.alts[j].name in names;
    assert Idle(s.alts);
    IdleQueuesNothing(s.alts);
    ZeroCountersSumToZero(Names(s.alts), s.stats.processedAlt);
  }

  // ----- run and stop ----------------------------------------------------------------

  datatype RunError = CallbacksRequired

  /** `run`: refuses (and changes nothing) unless both callbacks are
      functions; otherwise marks the simulation running from tick 0 with the
      "starting up" headline. Statistics and queues are not reset. */
  function Run(s: Sim, onTickIsFunction: bool, onFinishIsFunction: bool): (r: Result<Sim, RunError>)
    ensures r.Err? <==> !(onTickIsFunction && onFinishIsFunction)
    ensures r.Ok? ==> r.value.running && r.value.tick == 0 && r.value.headline == StartingUp
    ensures r.Ok? ==> r.value == s.(running := true, tick := 0, headline := StartingUp)
  {
    if !(onTickIsFunction && onFinishIsFunction) then Err(CallbacksRequired)
    else Ok(s.(running := true, tick := 0, headline := StartingUp))
  }

  /** `stop`: clears the running flag (the pending timer is not modelled). */
  function Stop(s: Sim): (r: Sim)
    ensures !r.running && r == s.(running := false)
  {
    s.(running := false)
  }

  /** Starting a run keeps the bookkeeping invariants. */
  lemma {:induction false} RunKeepsInvariants(s: Sim, onTickIsFunction: bool, onFinishIsFunction: bool)
    requires Wf(s) && Conserved(s)
    ensures var r := Run(s, onTickIsFunction, onFinishIsFunction);
      r.Ok? ==> Wf(r.value) && Conserved(r.value) && r.value.stats == s.stats
  {}

  // ----- degradation event ---------------------------------------------------------------

  /** Degradation start on alternative `i`: remember the current capacity,
      divide it by the factor, and re-derive the processing time. */
  function StartDegradation(s: Sim, i: nat, d: Degradation): (r: Sim)
    requires i < |s.alts|
    ensures var c := Divide(s.alts[i].capacity, d.factor);
      && r.alts == s.alts[i := s.alts[i].(capacity := c, time := TimeOfCapacity(c))]
      && r.degraded == s.degraded[s.alts[i].name := s.alts[i].capacity]
      && r == s.(alts := r.alts, degraded := r.degraded)
  {
    var saved := s.alts[i].capacity;
    var c := Divide(saved, d.factor);
    s.(alts := s.alts[i := s.alts[i].(capacity := c, time := TimeOfCapacity(c))],
       degraded := s.degraded[s.alts[i].name := saved])
  }

  /** Degradation end on alternative `i`: restore the remembered capacity and
      its processing time, unless nothing (or `undefined`) was remembered. */
  function EndDegradation(s: Sim, i: nat): (r: Sim)
    requires i < |s.alts|
    ensures var name := s.alts[i].name;
      && (name in s.degraded && s.degraded[name] != Undefined ==>
            && r.alts == s.alts[i := s.alts[i].(capacity := s.degraded[name],
                                                time := TimeOfCapacity(s.degraded[name]))]
            && r.degraded == s.degraded - {name}
            && r == s.(alts := r.alts, degraded := r.degraded))
      && (!(name in s.degraded && s.degraded[name] != Undefined) ==> r == s)
  {
    var name := s.alts[i].name;
    if name in s.degraded && s.degraded[name] != Undefined then
      var saved := s.degraded[name];
      s.(alts := s.alts[i := s.alts[i].(capacity := saved, time := TimeOfCapacity(saved))],
         degraded := s.degraded - {name})
    else s
  }

  /** The alternative a degradation event applies to, if any. */
  function DegradedTarget(s: Sim): Option<nat> {
    match s.params.degradation
    case None => None
    case Some(d) => if d.target == "" then None else FindAlt(s.alts, d.target)
  }

  /** `_handleEvents` (the storm announcement is only logged). */
  function HandleEvents(s: Sim): (r: Sim)
    requires Wf(s)
    ensures r == s.(alts := r.alts, degraded := r.degraded)
    ensures |r.alts| == |s.alts|
    ensures forall j :: 0 <= j < |s.alts| ==>
              r.alts[j] == s.alts[j].(capacity := r.alts[j].capacity, time := r.alts[j].time)
    ensures DegradedTarget(s).None? ==> r == s
    ensures DegradedTarget(s).Some? ==> forall j :: 0 <= j < |s.alts| && j != DegradedTarget(s).value ==>
              r.alts[j] == s.alts[j]
    ensures DegradedTarget(s).Some? && s.params.degradation.value.startTick == Some(s.tick) ==>
              var i := DegradedTarget(s).value;
              var c := Divide(s.alts[i].capacity, s.params.degradation.value.factor);
              && r.alts[i].capacity == c && r.alts[i].time == TimeOfCapacity(c)
              && r.degraded == s.degraded[s.alts[i].name := s.alts[i].capacity]
    ensures DegradedTarget(s).Some? && DegradationEnd(s.params.degradation.value) == Some(s.tick) ==>
              var i := DegradedTarget(s).value;
              var name := s.alts[i].name;
              && (name in s.degraded && s.degraded[name] != Undefined ==>
                    && r.alts[i].capacity == s.degraded[name]
                    && r.alts[i].time == TimeOfCapacity(s.degraded[name])
                    && r.degraded == s.degraded - {name})
              && (!(name in s.degraded && s.degraded[name] != Undefined) ==> r == s)
    ensures (&& DegradedTarget(s).Some? && s.params.degradation.value.startTick != Some(s.tick)
             && DegradationEnd(s.params.degradation.value) != Some(s.tick)) ==> r == s
  {
    match DegradedTarget(s)
    case None => s
    case Some(i) =>
      var d := s.params.degradation.value;
      var s1 := if d.startTick == Some(s.tick) then StartDegradation(s, i, d) else s;
      if DegradationEnd(d) == Some(s.tick) then EndDegradation(s1, i) else s1
  }

  lemma {:induction false} HandleEventsKeepsInvariants(s: Sim)
    requires Wf(s)
    ensures var r := HandleEvents(s);
      Wf(r) && Names(r.alts) == Names(s.alts) && Queued(r) == Queued(s) && Processed(r) == Processed(s)
  {
    var r := HandleEvents(s);
    if DegradedTarget(s).Some? {
      var i := DegradedTarget(s).value;
      assert r.alts == s.alts[i := r.alts[i]];
      AltQueuedUpdate(s.alts, i, r.alts[i]);
      assert Names(r.alts) == Names(s.alts);
    }
  }

  /** The state at the end tick of a degradation started in `s`: the same
      alternatives in the same order, with the target's capacity, processing
      time and the remembered values as the start left them. Queues, credit
      and everything else may have changed in between. */
  predicate AtDegradationEnd(s: Sim, mid: Sim)
    requires Wf(s) && DegradedTarget(s).Some?
  {
    var i := DegradedTarget(s).value;
    var started := HandleEvents(s);
    && Wf(mid) && mid.params == s.params
    && Names(mid.alts) == Names(s.alts)
    && mid.alts[i].capacity == started.alts[i].capacity
    && mid.alts[i].time == started.alts[i].time
    && mid.degraded == started.degraded
    && DegradationEnd(s.params.degradation.value) == Some(mid.tick)
  }

  lemma {:induction false} AtDegradationEndIntro(s: Sim, mid: Sim)
    requires Wf(s) && DegradedTarget(s).Some?
    requires Wf(mid) && mid.params == s.params && Names(mid.alts) == Names(s.alts)
    requires var i := DegradedTarget(s).value;
      && mid.alts[i].capacity == HandleEvents(s).alts[i].capacity
      && mid.alts[i].time == HandleEvents(s).alts[i].time
    requires mid.degraded == HandleEvents(s).degraded
    requires DegradationEnd(s.params.degradation.value) == Some(mid.tick)
    ensures AtDegradationEnd(s, mid)
  {}

  /** At the end tick the event applies to the same alternative as at the
      start. */
  lemma {:induction false} SameTargetAtEnd(s: Sim, mid: Sim)
    requires Wf(s) && DegradedTarget(s).Some? && AtDegradationEnd(s, mid)
    ensures DegradedTarget(mid) == DegradedTarget(s)
    ensures mid.tick != s.params.degradation.value.startTick.value
  {
    var i := DegradedTarget(s).value;
    assert mid.alts[i].name == s.alts[i].name by {
      assert Names(mid.alts)[i] == Names(s.alts)[i];
    }
    FindAltUnique(mid.alts, i);
  }

  /** A degradation with a positive duration, applied to an alternative
      whose capacity is a positive number, ends with the capacity and the
      processing time exactly as they were before it started, and the
      remembered value is dropped; the queue and credit are those of the end
      tick. In between, traffic may move through the alternative freely. */
  lemma {:induction false} DegradationRestores(s: Sim, mid: Sim)
    requires Wf(s) && DegradedTarget(s).Some?
    requires var d := s.params.degradation.value;
      && d.startTick == Some(s.tick) && d.duration.Some? && d.duration.value > 0
    requires var i := DegradedTarget(s).value; s.alts[i].capacity.Val? && s.alts[i].capacity.v > 0.0
    requires var i := DegradedTarget(s).value; s.alts[i].time == TimeOfCapacity(s.alts[i].capacity)
    requires AtDegradationEnd(s, mid)
    ensures var i := DegradedTarget(s).value;
      var r := HandleEvents(mid);
      && r.alts[i].capacity == s.alts[i].capacity
      && r.alts[i].time == s.alts[i].time
      && r.alts[i] == mid.alts[i].(capacity := s.alts[i].capacity, time := s.alts[i].time)
      && s.alts[i].name !in r.degraded
  {
    SameTargetAtEnd(s, mid);
  }

  /** Without a positive-length end, the degraded capacity is never
      restored: outside its start tick the event changes nothing. */
  lemma {:induction false} OpenDegradationNeverRestored(s: Sim)
    requires Wf(s) && s.params.degradation.Some?
    requires DegradationEnd(s.params.degradation.value).None?
    requires s.params.degradation.value.startTick != Some(s.tick)
    ensures HandleEvents(s) == s
  {}

  /** A pathway configured without a capacity runs at 1 TPS, but the value
      remembered when a degradation starts is `undefined`, so the end of the
      degradation restores nothing and the pathway is left with an infinite
      processing time. */
  lemma {:induction false} UndefinedCapacityNeverRecovers(s: Sim, mid: Sim)
    requires Wf(s) && DegradedTarget(s).Some?
    requires var d := s.params.degradation.value;
      && d.startTick == Some(s.tick) && d.duration.Some? && d.duration.value > 0
    requires s.alts[DegradedTarget(s).value].capacity == Undefined
    requires AtDegradationEnd(s, mid)
    ensures HandleEvents(s).alts[DegradedTarget(s).value].time == Inf
    ensures HandleEvents(mid).alts[DegradedTarget(s).value].time == Inf
  {
    SameTargetAtEnd(s, mid);
  }

  /** A pathway configured with capacity 0 runs at 1 TPS (`0 || 1`), but
      the restore at the end of a degradation uses the remembered 0 directly
      and leaves it with an infinite processing time. */
  lemma {:induction false} ZeroCapacityRestoredAsStopped(s: Sim, mid: Sim)
    requires Wf(s) && DegradedTarget(s).Some?
    requires var d := s.params.degradation.value;
      && d.startTick == Some(s.tick) && d.duration.Some? && d.duration.value > 0
    requires s.alts[DegradedTarget(s).value] ==
             NewPathway(s.alts[DegradedTarget(s).value].name, s.alts[DegradedTarget(s).value].config)
             .(queue := s.alts[DegradedTarget(s).value].queue, power := s.alts[DegradedTarget(s).value].power)
    requires s.alts[DegradedTarget(s).value].config.capacityTPS == Some(0.0)
    requires AtDegradationEnd(s, mid)
    ensures s.alts[DegradedTarget(s).value].time == Fin(1.0)
    ensures HandleEvents(mid).alts[DegradedTarget(s).value].time == Inf
  {
    SameTargetAtEnd(s, mid);
  }

  // ----- arrivals ------------------------------------------------------------------------

  /** One draw in [0, 1) per pathway (main first). */
  predicate ValidDraws(n: nat, draws: seq<real>) {
    |draws| == n + 1 && forall k :: 0 <= k < |draws| ==> 0.0 <= draws[k] < 1.0
  }

  /** The arrival rate of pathway `k` (0 is main, `j + 1` is alternative `j`):
      `loadTPS || 0`, multiplied by the storm multiplier for the main pathway
      inside the storm window. None stands for NaN (a missing multiplier). */
  function RateOf(s: Sim, k: nat): (r: Option<real>)
    requires k <= |s.alts|
    ensures r.None? <==>
              k == 0 && StormWindow(s.params, s.tick) && s.params.storm.value.multiplier.None?
    ensures !StormWindow(s.params, s.tick) || k > 0 ==>
              r == Some(RealOr(if k == 0 then s.main.config.loadTPS else s.alts[k - 1].config.loadTPS, 0.0))
    ensures k == 0 && StormWindow(s.params, s.tick) && s.params.storm.value.multiplier.Some? ==>
              r == Some(RealOr(s.main.config.loadTPS, 0.0) * s.params.storm.value.multiplier.value)
  {
    if k == 0 then
      var base := RealOr(s.main.config.loadTPS, 0.0);
      if !StormWindow(s.params, s.tick) then Some(base)
      else if s.params.storm.value.multiplier.None? then None
      else Some(RealOr(s.main.config.loadTPS, 0.0) * s.params.storm.value.multiplier.value)
    else Some(RealOr(s.alts[k - 1].config.loadTPS, 0.0))
  }

  /** `floor(r)`, plus one when the draw falls under the fractional part of
      `r`; a NaN rate or a negative count adds nothing. */
  function ArrivalCount(rate: Option<real>, u: real): (n: nat)
    requires 0.0 <= u < 1.0
    ensures rate.None? ==> n == 0
    ensures rate.Some? && rate.value >= 0.0 ==>
              && (n == rate.value.Floor || n == rate.value.Floor + 1)
              && (n == rate.value.Floor + 1 <==> u < rate.value - rate.value.Floor as real)
    ensures rate.Some? && rate.value < 0.0 ==> n == 0
    ensures rate.Some? && rate.value == rate.value.Floor as real && rate.value >= 0.0 ==> n == rate.value.Floor
  {
    match rate
    case None => 0
    case Some(r) =>
      var base := r.Floor;
      var count := if u < r - base as real then base + 1 else base;
      if count < 0 then 0 else count
  }

  /** The number of arrivals for every pathway this tick (main first). */
  function Counts(s: Sim, draws: seq<real>): (c: seq<nat>)
    requires ValidDraws(|s.alts|, draws)
    ensures |c| == |s.alts| + 1
    ensures forall k :: 0 <= k < |c| ==> c[k] == ArrivalCount(RateOf(s, k), draws[k])
  {
    seq(|s.alts| + 1, k requires 0 <= k <= |s.alts| => ArrivalCount(RateOf(s, k), draws[k]))
  }

  function Sum(xs: seq<nat>): nat {
    if |xs| == 0 then 0 else xs[0] + Sum(xs[1..])
  }

  lemma {:induction false} SumSplit(xs: seq<nat>, k: nat)
    requires k <= |xs|
    ensures Sum(xs) == Sum(xs[..k]) + Sum(xs[k..])
    decreases k
  {
    if k > 0 {
      SumSplit(xs[1..], k - 1);
      assert xs[1..][..k - 1] == xs[..k][1..];
      assert xs[1..][k - 1..] == xs[k..];
    }
  }

  lemma {:induction false} SumPrefixStep(xs: seq<nat>, k: nat)
    requires k < |xs|
    ensures Sum(xs[..k + 1]) == Sum(xs[..k]) + xs[k]
  {
    SumSplit(xs[..k + 1], k);
    assert xs[..k + 1][..k] == xs[..k];
    assert xs[..k + 1][k..] == [xs[k]];
  }

  /** `n` fresh transactions created at `tick` with serials `first`,
      `first + 1`, ... */
  function Fresh(tick: int, first: nat, n: nat): (f: seq<Tx>)
    ensures |f| == n
    ensures forall i :: 0 <= i < n ==> f[i] == Tx(tick, first + i)
  {
    seq(n, i requires 0 <= i < n => Tx(tick, first + i))
  }

  /** Appends to alternative `j` the `c[j]` fresh transactions whose serials
      follow the blocks handed to the alternatives before it. */
  function GenerateAlts(alts: seq<Pathway>, tick: int, next: nat, c: seq<nat>): (r: seq<Pathway>)
    requires |c| == |alts|
    ensures |r| == |alts|
    ensures forall j :: 0 <= j < |alts| ==>
              r[j] == alts[j].(queue := r[j].queue) && |r[j].queue| == |alts[j].queue| + c[j]
  {
    seq(|alts|, j requires 0 <= j < |alts| =>
          alts[j].(queue := alts[j].queue + Fresh(tick, next + Sum(c[..j]), c[j])))
  }

  lemma {:induction false} SameNames(alts: seq<Pathway>, r: seq<Pathway>)
    requires |r| == |alts|
    requires forall j :: 0 <= j < |alts| ==> r[j].name == alts[j].name
    ensures Names(r) == Names(alts)
  {}

  /** `_generateNewTransactions`: main first (storm applies), then every
      alternative; the counter of generated transactions grows by the total. */
  function Generate(s: Sim, c: seq<nat>): (r: Sim)
    requires |c| == |s.alts| + 1
    ensures r == s.(main := r.main, alts := r.alts, stats := r.stats)
    ensures r.stats == s.stats.(generated := s.stats.generated + Sum(c))
    ensures r.main == s.main.(queue := r.main.queue) && |r.alts| == |s.alts|
    ensures forall j :: 0 <= j < |s.alts| ==> r.alts[j] == s.alts[j].(queue := r.alts[j].queue)
  {
    var g := s.stats.generated;
    s.(main := s.main.(queue := s.main.queue + Fresh(s.tick, g + 1, c[0])),
       alts := GenerateAlts(s.alts, s.tick, g + 1 + c[0], c[1..]),
       stats := s.stats.(generated := g + Sum(c)))
  }

  /** The queue of pathway `k`: 0 is the main pathway, `j + 1` is
      alternative `j`. */
  function QueueOf(s: Sim, k: nat): seq<Tx>
    requires k <= |s.alts|
  {
    if k == 0 then s.main.queue else s.alts[k - 1].queue
  }

  /** Serials are handed out without gaps or repeats: this tick's arrivals
      are `Fresh(tick, g + 1, total)` for the previous count `g`, cut into
      consecutive blocks, pathway `k` receiving the block that follows the
      blocks of pathways `0..k-1`, appended behind its waiting queue. */
  lemma {:induction false} GenerateSerials(s: Sim, c: seq<nat>, k: nat)
    requires |c| == |s.alts| + 1 && k <= |s.alts|
    ensures var all := Fresh(s.tick, s.stats.generated + 1, Sum(c));
      && Sum(c[..k]) + c[k] <= Sum(c)
      && QueueOf(Generate(s, c), k) == QueueOf(s, k) + all[Sum(c[..k])..Sum(c[..k]) + c[k]]
  {
    var r := Generate(s, c);
    var first := s.stats.generated + 1;
    if k == 0 {
      assert c[..0] == [];
      assert r.main.queue == s.main.queue + Fresh(s.tick, first + Sum(c[..k]), c[k]);
    } else {
      AltBlock(s, c, k);
    }
    SerialBlocks(s.tick, first, c, k);
  }

  /** Alternative `k - 1` (pathway `k`) receives the block that starts
      after the blocks of pathways `0..k-1`. */
  lemma {:induction false} AltBlock(s: Sim, c: seq<nat>, k: nat)
    requires |c| == |s.alts| + 1 && 0 < k <= |s.alts|
    ensures Generate(s, c).alts[k - 1].queue
            == s.alts[k - 1].queue + Fresh(s.tick, s.stats.generated + 1 + Sum(c[..k]), c[k])
  {
    var next := s.stats.generated + 1 + c[0];
    var alts := GenerateAlts(s.alts, s.tick, next, c[1..]);
    assert Generate(s, c).alts == alts;
    assert alts[k - 1].queue == s.alts[k - 1].queue + Fresh(s.tick, next + Sum(c[1..][..k - 1]), c[k]);
    assert c[..k][1..] == c[1..][..k - 1];
  }

  /** Arrivals keep the invariants and add exactly their total to the
      queued transactions. */
  lemma {:induction false} GenerateKeepsInvariants(s: Sim, c: seq<nat>)
    requires Wf(s) && |c| == |s.alts| + 1
    ensures var r := Generate(s, c);
      && Wf(r) && Names(r.alts) == Names(s.alts)
      && Queued(r) == Queued(s) + Sum(c)
  {
    var r := Generate(s, c);
    assert Names(r.alts) == Names(s.alts) by {
      SameNames(s.alts, r.alts);
    }
    assert AltQueued(s.alts) + Sum(c[1..]) == AltQueued(r.alts) by {
      QueueDelta(r.alts, s.alts, c[1..]);
    }
    assert Sum(c) == c[0] + Sum(c[1..]);
  }

  /** The block of pathway `k` is exactly the slice of
      `first, first + 1, ..., first + Sum(c) - 1` that follows the blocks of
      pathways `0..k-1`. */
  lemma {:induction false} SerialBlocks(tick: int, first: nat, c: seq<nat>, k: nat)
    requires k < |c|
    ensures Sum(c[..k]) + c[k] <= Sum(c)
    ensures Fresh(tick, first, Sum(c))[Sum(c[..k])..Sum(c[..k]) + c[k]]
            == Fresh(tick, first + Sum(c[..k]), c[k])
  {
    assert Sum(c[..k]) + c[k] <= Sum(c) by {
      SumPrefixStep(c, k);
      SumSplit(c, k + 1);
    }
    FreshSlice(tick, first, Sum(c), Sum(c[..k]), c[k]);
  }

  lemma {:induction false} FreshSlice(tick: int, first: nat, n: nat, a: nat, m: nat)
    requires a + m <= n
    ensures Fresh(tick, first, n)[a..a + m] == Fresh(tick, first + a, m)
  {
    var f := Fresh(tick, first, n);
    var g := Fresh(tick, first + a, m);
    assert forall i :: 0 <= i < m ==> f[a..a + m][i] == f[a + i] == g[i];
  }

  // ----- processing and statistics -------------------------------------------------------

  /** Credits `done[j]` completions to the counter of `names[j]`, in order
      (`processedAlt[name] += processed.length`). */
  function Credit(names: seq<string>, done: seq<nat>, m: map<string, nat>): (r: map<string, nat>)
    requires |done| == |names|
    requires forall j :: 0 <= j < |names| ==> names[j] in m
    ensures r.Keys == m.Keys
    ensures forall k :: k in m && k !in names ==> r[k] == m[k]
    decreases |names|
  {
    if |names| == 0 then m
    else Credit(names[1..], done[1..], m[names[0] := m[names[0]] + done[0]])
  }

  /** No name occurs twice, stated head-first so that it unfolds along the
      recursion of `Credit`. */
  predicate NoRepeats(names: seq<string>)
    decreases |names|
  {
    |names| == 0 || (names[0] !in names[1..] && NoRepeats(names[1..]))
  }

  lemma {:induction false} DistinctHasNoRepeats(names: seq<string>)
    requires forall a, b :: 0 <= a < b < |names| ==> names[a] != names[b]
    ensures NoRepeats(names)
    decreases |names|
  {
    if |names| > 0 {
      assert names[0] !in names[1..] by {
        forall j | 0 <= j < |names[1..]|
          ensures names[1..][j] != names[0]
        {
          assert names[j + 1] != names[0];
        }
      }
      DistinctHasNoRepeats(names[1..]);
    }
  }

  /** With distinct names, each counter grows by its own pathway's count. */
  lemma {:induction false} CreditEach(names: seq<string>, done: seq<nat>, m: map<string, nat>)
    requires |done| == |names|
    requires forall j :: 0 <= j < |names| ==> names[j] in m
    requires NoRepeats(names)
    ensures forall j :: 0 <= j < |names| ==> Credit(names, done, m)[names[j]] == m[names[j]] + done[j]
    decreases |names|
  {
    if |names| > 0 {
      var m1 := m[names[0] := m[names[0]] + done[0]];
      CreditEach(names[1..], done[1..], m1);
      forall j | 0 < j < |names|
        ensures Credit(names, done, m)[names[j]] == m[names[j]] + done[j]
      {
        assert names[1..][j - 1] == names[j];
      }
    }
  }

  /** Crediting adds exactly the total count to the sum of the counters. */
  lemma {:induction false} CreditSum(names: seq<string>, done: seq<nat>, m: map<string, nat>)
    requires |done| == |names|
    requires forall j :: 0 <= j < |names| ==> names[j] in m
    requires NoRepeats(names)
    ensures SumOver(names, Credit(names, done, m)) == SumOver(names, m) + Sum(done)
    decreases |names|
  {
    if |names| > 0 {
      var k := names[0];
      var m1 := m[k := m[k] + done[0]];
      var c := Credit(names[1..], done[1..], m1);
      assert Credit(names, done, m) == c;
      assert Get(c, k) == m[k] + done[0];
      assert SumOver(names[1..], c) == SumOver(names[1..], m) + Sum(done[1..]) by {
        CreditSum(names[1..], done[1..], m1);
        SumOverOther(names[1..], m, k, m[k] + done[0]);
      }
    }
  }

  /** Pathways whose queues each differ by `d[j]` transactions differ by
      `Sum(d)` in total. */
  lemma {:induction false} QueueDelta(a: seq<Pathway>, b: seq<Pathway>, d: seq<nat>)
    requires |a| == |b| == |d|
    requires forall j :: 0 <= j < |a| ==> |b[j].queue| + d[j] == |a[j].queue|
    ensures AltQueued(b) + Sum(d) == AltQueued(a)
    decreases |a|
  {
    if |a| > 0 {
      QueueDelta(a[1..], b[1..], d[1..]);
    }
  }

  /** The number of completions of each alternative in one tick. */
  function Completions(alts: seq<Pathway>): (d: seq<nat>)
    ensures |d| == |alts|
    ensures forall j :: 0 <= j < |alts| ==> d[j] == |Process(alts[j]).1|
  {
    seq(|alts|, j requires 0 <= j < |alts| => |Process(alts[j]).1|)
  }

  /** Main pathway first, then every alternative in configuration order,
      crediting each pathway's completions to its own counter. */
  function ProcessAll(s: Sim): (r: Sim)
    requires Wf(s)
    ensures r == s.(main := r.main, alts := r.alts, stats := r.stats)
    ensures r.main == Process(s.main).0
    ensures |r.alts| == |s.alts|
    ensures forall j :: 0 <= j < |s.alts| ==> r.alts[j] == Process(s.alts[j]).0
    ensures r.stats == s.stats.(processedMain := s.stats.processedMain + |Process(s.main).1|,
                                processedAlt := r.stats.processedAlt)
    ensures r.stats.processedAlt.Keys == s.stats.processedAlt.Keys
  {
    var done := Completions(s.alts);
    s.(main := Process(s.main).0,
       alts := seq(|s.alts|, j requires 0 <= j < |s.alts| => Process(s.alts[j]).0),
       stats := s.stats.(processedMain := s.stats.processedMain + |Process(s.main).1|,
                         processedAlt := Credit(Names(s.alts), done, s.stats.processedAlt)))
  }

  /** Processing keeps the names and the invariants, credits every
      alternative's completions to its counter, and moves transactions from
      the queues to the counters without losing or inventing any. */
  lemma {:induction false} ProcessAllKeepsInvariants(s: Sim)
    requires Wf(s)
    ensures var r := ProcessAll(s);
      && Wf(r) && Names(r.alts) == Names(s.alts)
      && Queued(r) + Processed(r) == Queued(s) + Processed(s)
      && forall j :: 0 <= j < |s.alts| ==>
           r.stats.processedAlt[s.alts[j].name]
           == s.stats.processedAlt[s.alts[j].name] + |Process(s.alts[j]).1|
  {
    var r := ProcessAll(s);
    var names := Names(s.alts);
    var done := Completions(s.alts);
    assert Names(r.alts) == names by {
      SameNames(s.alts, r.alts);
    }
    assert r.stats.processedAlt == Credit(names, done, s.stats.processedAlt);
    assert NoRepeats(names) by {
      DistinctHasNoRepeats(names);
    }
    CreditEach(names, done, s.stats.processedAlt);
    assert SumOver(names, r.stats.processedAlt) == SumOver(names, s.stats.processedAlt) + Sum(done) by {
      CreditSum(names, done, s.stats.processedAlt);
    }
    assert AltQueued(r.alts) + Sum(done) == AltQueued(s.alts) by {
      QueueDelta(s.alts, r.alts, done);
    }
    assert |Process(s.main).1| + |r.main.queue| == |s.main.queue|;
  }

  /** `_updateDynamicStats`: the running maximum of the main queue. */
  function UpdateStats(s: Sim): (r: Sim)
    ensures r == s.(stats := r.stats)
    ensures r.stats == s.stats.(maxMainQueue := r.stats.maxMainQueue)
    ensures r.stats.maxMainQueue >= s.stats.maxMainQueue && r.stats.maxMainQueue >= |s.main.queue|
    ensures r.stats.maxMainQueue == s.stats.maxMainQueue || r.stats.maxMainQueue == |s.main.queue|
  {
    if |s.main.queue| > s.stats.maxMainQueue then s.(stats := s.stats.(maxMainQueue := |s.main.queue|))
    else s
  }

  // ----- one tick --------------------------------------------------------------------------

  /** The state after events, the controller and processing: the point at
      which the maximum main queue is measured. */
  function Settled(s: Sim): (r: Sim)
    requires Wf(s)
    ensures Wf(r) && |r.alts| == |s.alts| && Names(r.alts) == Names(s.alts)
    ensures Conserved(s) ==> Conserved(r)
    ensures r.tick == s.tick && r.params == s.params && r.running == s.running
    ensures r.stats.generated == s.stats.generated && r.stats.maxMainQueue == s.stats.maxMainQueue
    ensures s.movements <= r.movements
  {
    var s1 := HandleEvents(s);
    HandleEventsKeepsInvariants(s);
    var s2 := CheckAndReact(s1);
    FrameKeepsWf(s1, s2);
    ProcessAllKeepsInvariants(s2);
    ProcessAll(s2)
  }

  /** The rest of `_performTick` after processing: the running maximum of
      the main queue, the arrivals, and the tick advance. */
  function Finish(s: Sim, draws: seq<real>): (r: Sim)
    requires Wf(s) && ValidDraws(|s.alts|, draws)
    ensures Wf(r) && |r.alts| == |s.alts|
    ensures r.tick == s.tick + 1 && r.params == s.params && r.running == s.running
  {
    var s1 := UpdateStats(s);
    var c := Counts(s1, draws);
    GenerateKeepsInvariants(s1, c);
    Generate(s1, c).(tick := s.tick + 1)
  }

  lemma {:induction false} FinishConserves(s: Sim, draws: seq<real>)
    requires Wf(s) && ValidDraws(|s.alts|, draws)
    ensures Names(Finish(s, draws).alts) == Names(s.alts)
    ensures Conserved(s) ==> Conserved(Finish(s, draws))
  {
    var s1 := UpdateStats(s);
    var c := Counts(s1, draws);
    var s2 := Generate(s1, c);
    assert Finish(s, draws) == s2.(tick := s.tick + 1);
    assert Names(s2.alts) == Names(s1.alts) && Queued(s2) == Queued(s1) + Sum(c) by {
      GenerateKeepsInvariants(s1, c);
    }
    assert Processed(s2) == Processed(s1);
  }

  lemma {:induction false} FinishMonotone(s: Sim, draws: seq<real>)
    requires Wf(s) && ValidDraws(|s.alts|, draws)
    ensures var r := Finish(s, draws);
      && r.stats.maxMainQueue >= s.stats.maxMainQueue
      && r.stats.maxMainQueue >= |s.main.queue|
      && r.stats.generated >= s.stats.generated
      && r.movements == s.movements
  {
  }

  /** `_handleEvents` then `_performTick`, then the tick advances. */
  function Tick(s: Sim, draws: seq<real>): (r: Sim)
    requires Wf(s) && ValidDraws(|s.alts|, draws)
    ensures Wf(r) && |r.alts| == |s.alts|
    ensures r.tick == s.tick + 1 && r.params == s.params && r.running == s.running
  {
    Finish(Settled(s), draws)
  }

  /** A tick keeps every transaction accounted for: the arrivals are
      counted as generated and nothing else enters or leaves. */
  lemma {:induction false} TickConserves(s: Sim, draws: seq<real>)
    requires Wf(s) && ValidDraws(|s.alts|, draws)
    ensures Names(Tick(s, draws).alts) == Names(s.alts)
    ensures Conserved(s) ==> Conserved(Tick(s, draws))
  {
    FinishConserves(Settled(s), draws);
  }

  /** A tick never lowers the statistics, records the main queue as
      measured after processing, and only appends to the movement log. */
  lemma {:induction false} TickMonotone(s: Sim, draws: seq<real>)
    requires Wf(s) && ValidDraws(|s.alts|, draws)
    ensures var r := Tick(s, draws);
      && r.stats.maxMainQueue >= s.stats.maxMainQueue
      && r.stats.maxMainQueue >= |Settled(s).main.queue|
      && r.stats.generated >= s.stats.generated
      && s.movements <= r.movements
  {
    FinishMonotone(Settled(s), draws);
  }

  // ----- snapshots, summary and the loop --------------------------------------------------

  datatype AltView = AltView(name: string, queueLength: nat, isActive: bool, isReady: bool)

  datatype Snapshot = Snapshot(
    tick: int,
    mainQueue: nat,
    pathways: seq<AltView>,
    breakerTripped: bool,
    moved: seq<Movement>,
    headline: Headline)

  datatype Summary = Summary(totalTicks: int, finalStats: Stats)

  /** `_getDataSnapshot`. */
  function TakeSnapshot(s: Sim): (v: Snapshot)
    requires Wf(s)
    ensures v.tick == s.tick && v.mainQueue == |s.main.queue| && v.breakerTripped == s.ctl.tripped
    ensures v.moved == s.movements && v.headline == s.headline && |v.pathways| == |s.alts|
    ensures forall j :: 0 <= j < |s.alts| ==>
              v.pathways[j] == AltView(s.alts[j].name, |s.alts[j].queue|,
                                       s.act[s.alts[j].name].isActive, Ready(s, j))
  {
    Snapshot(s.tick, |s.main.queue|,
             seq(|s.alts|, j requires 0 <= j < |s.alts| =>
                   AltView(s.alts[j].name, |s.alts[j].queue|, s.act[s.alts[j].name].isActive, Ready(s, j))),
             s.ctl.tripped, s.movements, s.headline)
  }

  /** `getSummary`. */
  function GetSummary(s: Sim): (m: Summary)
    ensures m.totalTicks == s.tick && m.finalStats == s.stats
  {
    Summary(s.tick, s.stats)
  }

  /** `currentTick > totalSimulationTicks`; an absent total never ends the run. */
  predicate Past(s: Sim) {
    s.params.totalSimulationTicks.Some? && s.tick > s.params.totalSimulationTicks.value
  }

  predicate DrawsFor(n: nat, draws: seq<seq<real>>) {
    forall t :: 0 <= t < |draws| ==> ValidDraws(n, draws[t])
  }

  /** What the loop relies on from the tick it runs: on a well-formed state
      and fitting draws it is defined, keeps the invariants and the
      conservation of transactions, advances the clock by one, leaves the
      parameters and the running flag alone, never lowers the statistics
      and only appends to the movement log. */
  ghost predicate LawfulAt(tick: (Sim, seq<real>) --> Sim, s: Sim, d: seq<real>) {
    && tick.requires(s, d)
    && Wf(tick(s, d)) && |tick(s, d).alts| == |s.alts| && Names(tick(s, d).alts) == Names(s.alts)
    && tick(s, d).tick == s.tick + 1 && tick(s, d).params == s.params
    && tick(s, d).running == s.running
    && (Conserved(s) ==> Conserved(tick(s, d)))
    && tick(s, d).stats.maxMainQueue >= s.stats.maxMainQueue
    && tick(s, d).stats.generated >= s.stats.generated
    && s.movements <= tick(s, d).movements
  }

  ghost predicate Lawful(tick: (Sim, seq<real>) --> Sim) {
    forall s: Sim, d: seq<real> {:trigger tick.requires(s, d)} {:trigger tick(s, d)} ::
      Wf(s) && ValidDraws(|s.alts|, d) ==> LawfulAt(tick, s, d)
  }

  /** `Tick` has every property the loop relies on. */
  lemma {:induction false} TickLawful()
    ensures Lawful(Tick)
  {
    forall s: Sim, d: seq<real> | Wf(s) && ValidDraws(|s.alts|, d)
      ensures LawfulAt(Tick, s, d)
    {
      TickConserves(s, d);
      TickMonotone(s, d);
    }
  }

  /** What a run produced: the snapshots handed to `onTick`, the summary
      handed to `onFinish` (None while still running), and the final state. */
  datatype Outcome = Outcome(snapshots: seq<Snapshot>, summary: Option<Summary>, last: Sim)

  /** `_tickLoop` running `tick`, one draw vector per tick: past its guard,
      the headline and snapshot are taken from the state as it stands, then
      the tick runs. The loop stops (without a summary) when the draws run
      out or do not fit. */
  function Loop(tick: (Sim, seq<real>) --> Sim, s: Sim, draws: seq<seq<real>>): (o: Outcome)
    requires Lawful(tick) && Wf(s)
    ensures o.summary.Some? ==> o.summary.value == GetSummary(o.last) && !o.last.running
    ensures |o.snapshots| <= |draws|
    decreases |draws|
  {
    if !s.running || Past(s) then
      var f := s.(running := false);
      Outcome([], Some(GetSummary(f)), f)
    else if |draws| == 0 || !ValidDraws(|s.alts|, draws[0]) then
      Outcome([], None, s)
    else
      var s0 := s.(headline := DetermineHeadline(s));
      var rest := Loop(tick, tick(s0, draws[0]), draws[1..]);
      Outcome([TakeSnapshot(s0)] + rest.snapshots, rest.summary, rest.last)
  }

  /** Every state the loop reaches keeps the invariants and the
      conservation of transactions. */
  lemma {:induction false} LoopKeepsInvariants(tick: (Sim, seq<real>) --> Sim, s: Sim, draws: seq<seq<real>>)
    requires Lawful(tick) && Wf(s)
    ensures var o := Loop(tick, s, draws);
      && Wf(o.last) && o.last.params == s.params && Names(o.last.alts) == Names(s.alts)
      && (Conserved(s) ==> Conserved(o.last))
    decreases |draws|
  {
    if s.running && !Past(s) && |draws| > 0 && ValidDraws(|s.alts|, draws[0]) {
      var s0 := s.(headline := DetermineHeadline(s));
      LoopKeepsInvariants(tick, tick(s0, draws[0]), draws[1..]);
    }
  }

  /** Along the loop the statistics only grow and the movement log is only
      appended to. */
  lemma {:induction false} LoopMonotone(tick: (Sim, seq<real>) --> Sim, s: Sim, draws: seq<seq<real>>)
    requires Lawful(tick) && Wf(s)
    ensures var o := Loop(tick, s, draws);
      && o.last.stats.maxMainQueue >= s.stats.maxMainQueue
      && o.last.stats.generated >= s.stats.generated
      && s.movements <= o.last.movements
    decreases |draws|
  {
    if s.running && !Past(s) && |draws| > 0 && ValidDraws(|s.alts|, draws[0]) {
      var s0 := s.(headline := DetermineHeadline(s));
      LoopMonotone(tick, tick(s0, draws[0]), draws[1..]);
    }
  }

  /** Snapshots numbered consecutively from tick `t`. */
  predicate TicksFrom(snaps: seq<Snapshot>, t: int) {
    forall k :: 0 <= k < |snaps| ==> snaps[k].tick == t + k
  }

  lemma {:induction false} TicksFromCons(v: Snapshot, rest: seq<Snapshot>, t: int)
    requires v.tick == t && TicksFrom(rest, t + 1)
    ensures TicksFrom([v] + rest, t)
  {
    forall k | 0 < k < |rest| + 1
      ensures ([v] + rest)[k].tick == t + k
    {
      assert ([v] + rest)[k] == rest[k - 1];
    }
  }

  /** The snapshots of any run are numbered consecutively from its first
      tick, and each shows the main queue as it stood before its tick. */
  lemma {:induction false} LoopTicks(tick: (Sim, seq<real>) --> Sim, s: Sim, draws: seq<seq<real>>)
    requires Lawful(tick) && Wf(s)
    ensures TicksFrom(Loop(tick, s, draws).snapshots, s.tick)
    ensures |Loop(tick, s, draws).snapshots| > 0 ==>
              Loop(tick, s, draws).snapshots[0].mainQueue == |s.main.queue|
    decreases |draws|
  {
    if s.running && !Past(s) && |draws| > 0 && ValidDraws(|s.alts|, draws[0]) {
      var s0 := s.(headline := DetermineHeadline(s));
      var next := tick(s0, draws[0]);
      LoopTicks(tick, next, draws[1..]);
      TicksFromCons(TakeSnapshot(s0), Loop(tick, next, draws[1..]).snapshots, s.tick);
    }
  }

  /** A run from tick `t <= T + 1` with enough fitting draws takes one
      snapshot per remaining tick. */
  lemma {:induction false} LoopRunsToEnd(tick: (Sim, seq<real>) --> Sim, s: Sim, draws: seq<seq<real>>, total: int)
    requires Lawful(tick) && Wf(s) && DrawsFor(|s.alts|, draws) && s.running
    requires s.params.totalSimulationTicks == Some(total)
    requires 0 <= s.tick <= total + 1 && |draws| >= total + 1 - s.tick
    ensures |Loop(tick, s, draws).snapshots| == total + 1 - s.tick
    decreases total + 1 - s.tick
  {
    if s.tick <= total {
      var s0 := s.(headline := DetermineHeadline(s));
      LoopRunsToEnd(tick, tick(s0, draws[0]), draws[1..], total);
    }
  }

  /** ... and then finishes at tick `T + 1` with its summary. */
  lemma {:induction false} LoopFinishes(tick: (Sim, seq<real>) --> Sim, s: Sim, draws: seq<seq<real>>, total: int)
    requires Lawful(tick) && Wf(s) && DrawsFor(|s.alts|, draws) && s.running
    requires s.params.totalSimulationTicks == Some(total)
    requires 0 <= s.tick <= total + 1 && |draws| >= total + 1 - s.tick
    ensures Loop(tick, s, draws).summary == Some(Summary(total + 1, Loop(tick, s, draws).last.stats))
    ensures Loop(tick, s, draws).last.tick == total + 1
    decreases total + 1 - s.tick
  {
    if s.tick <= total {
      var s0 := s.(headline := DetermineHeadline(s));
      LoopFinishes(tick, tick(s0, draws[0]), draws[1..], total);
    }
  }

  /** A stopped simulation produces no further snapshot. */
  lemma {:induction false} StopHaltsTicks(tick: (Sim, seq<real>) --> Sim, s: Sim, draws: seq<seq<real>>)
    requires Lawful(tick) && Wf(s)
    ensures Loop(tick, Stop(s), draws).snapshots == []
    ensures Loop(tick, Stop(s), draws).last.stats == s.stats
  {}

  /** The whole program: construct, `run` with both callbacks, then loop
      over `Tick`. */
  function Simulate(p: Params, draws: seq<seq<real>>): (o: Outcome)
    requires DistinctConfigNames(p.alternatives)
    ensures o.summary.Some? ==> !o.last.running && o.summary.value.finalStats == o.last.stats
  {
    InitKeepsInvariants(p);
    TickLawful();
    Loop(Tick, Run(Init(p), true, true).value, draws)
  }

  /** At the end of any run, every generated transaction is still queued or
      has been processed. */
  lemma {:induction false} SimulateConserves(p: Params, draws: seq<seq<real>>)
    requires DistinctConfigNames(p.alternatives)
    ensures Wf(Simulate(p, draws).last) && Conserved(Simulate(p, draws).last)
  {
    InitKeepsInvariants(p);
    TickLawful();
    LoopKeepsInvariants(Tick, Run(Init(p), true, true).value, draws);
  }

  /** A full run of `T` configured ticks with enough draws executes ticks
      0..T, hands out `T + 1` snapshots and reports `T + 1` total ticks, with
      every generated transaction either queued or processed at the end. */
  lemma {:induction false} FullRun(p: Params, draws: seq<seq<real>>)
    requires DistinctConfigNames(p.alternatives) && DrawsFor(|p.alternatives|, draws)
    requires p.totalSimulationTicks.Some? && p.totalSimulationTicks.value >= 0
    requires |draws| >= p.totalSimulationTicks.value + 1
    ensures var o := Simulate(p, draws);
      var total := p.totalSimulationTicks.value;
      && |o.snapshots| == total + 1
      && TicksFrom(o.snapshots, 0)
      && o.summary.Some? && o.summary.value.totalTicks == total + 1
      && o.summary.value.finalStats.generated == Queued(o.last) + Processed(o.last)
  {
    InitKeepsInvariants(p);
    TickLawful();
    SimulateConserves(p, draws);
    var r := Run(Init(p), true, true).value;
    LoopTicks(Tick, r, draws);
    LoopRunsToEnd(Tick, r, draws, p.totalSimulationTicks.value);
    LoopFinishes(Tick, r, draws, p.totalSimulationTicks.value);
  }

  // ----- a degradation across ticks -------------------------------------------------------

  /** Within a tick only the degradation event changes a capacity, a
      processing time or the remembered capacities: the controller moves
      queues and processing spends credit, and neither touches them. */
  lemma {:induction false} TickKeepsCapacities(s: Sim, draws: seq<real>)
    requires Wf(s) && ValidDraws(|s.alts|, draws)
    ensures var r := Tick(s, draws);
      var e := HandleEvents(s);
      && r.degraded == e.degraded
      && forall j :: 0 <= j < |s.alts| ==>
           r.alts[j].capacity == e.alts[j].capacity && r.alts[j].time == e.alts[j].time
  {
    var s1 := HandleEvents(s);
    HandleEventsKeepsInvariants(s);
    var s2 := CheckAndReact(s1);
    FrameKeepsWf(s1, s2);
    var s3 := ProcessAll(s2);
    assert Settled(s) == s3;
    var s4 := UpdateStats(s3);
    var c := Counts(s4, draws);
    var r := Tick(s, draws);
    assert r == Generate(s4, c).(tick := s.tick + 1);
    forall j | 0 <= j < |s.alts|
      ensures r.alts[j].capacity == s1.alts[j].capacity && r.alts[j].time == s1.alts[j].time
    {
      assert s2.alts[j] == s1.alts[j].(queue := s2.alts[j].queue);
      assert s3.alts[j] == Process(s2.alts[j]).0;
    }
  }

  /** Tick `t` is neither the start nor the end of the configured degradation. */
  predicate Quiet(p: Params, t: int) {
    || p.degradation.None?
    || (p.degradation.value.startTick != Some(t) && DegradationEnd(p.degradation.value) != Some(t))
  }

  /** The classified headline plays no part in the degradation event. */
  lemma {:induction false} EventsIgnoreHeadline(s: Sim, h: Headline)
    requires Wf(s)
    ensures HandleEvents(s.(headline := h)) == HandleEvents(s).(headline := h)
  {
    assert DegradedTarget(s.(headline := h)) == DegradedTarget(s);
  }

  /** The states the running loop passes through: once per draw vector the
      headline is classified and `Tick` runs. */
  function Advance(s: Sim, draws: seq<seq<real>>): (r: Sim)
    requires Wf(s) && DrawsFor(|s.alts|, draws)
    ensures Wf(r) && |r.alts| == |s.alts| && Names(r.alts) == Names(s.alts)
    ensures r.tick == s.tick + |draws| && r.params == s.params && r.running == s.running
    decreases |draws|
  {
    if |draws| == 0 then s
    else
      var s0 := s.(headline := DetermineHeadline(s));
      TickConserves(s0, draws[0]);
      DrawsTail(|s.alts|, draws);
      Advance(Tick(s0, draws[0]), draws[1..])
  }

  /** One step of `Advance`: the first tick, then the rest of the draws. */
  lemma {:induction false} AdvanceStep(s: Sim, draws: seq<seq<real>>)
    requires Wf(s) && DrawsFor(|s.alts|, draws) && |draws| > 0
    ensures var s1 := Tick(s.(headline := DetermineHeadline(s)), draws[0]);
      && Wf(s1) && |s1.alts| == |s.alts| && Names(s1.alts) == Names(s.alts)
      && s1.tick == s.tick + 1 && s1.params == s.params && s1.running == s.running
      && DrawsFor(|s1.alts|, draws[1..])
      && Advance(s, draws) == Advance(s1, draws[1..])
  {
    var s0 := s.(headline := DetermineHeadline(s));
    TickConserves(s0, draws[0]);
    DrawsTail(|s.alts|, draws);
  }

  lemma {:induction false} DrawsTail(n: nat, draws: seq<seq<real>>)
    requires DrawsFor(n, draws) && |draws| > 0
    ensures ValidDraws(n, draws[0]) && DrawsFor(n, draws[1..])
  {
    assert forall t :: 0 <= t < |draws| - 1 ==> draws[1..][t] == draws[t + 1];
  }

  /** A tick that neither starts nor ends the degradation keeps every
      capacity, processing time and remembered capacity. */
  lemma {:induction false} QuietTickKeepsCapacities(s: Sim, d: seq<real>)
    requires Wf(s) && ValidDraws(|s.alts|, d) && Quiet(s.params, s.tick)
    ensures var r := Tick(s.(headline := DetermineHeadline(s)), d);
      && r.degraded == s.degraded
      && forall j :: 0 <= j < |s.alts| ==>
           r.alts[j].capacity == s.alts[j].capacity && r.alts[j].time == s.alts[j].time
  {
    var s0 := s.(headline := DetermineHeadline(s));
    assert HandleEvents(s0) == s0;
    TickKeepsCapacities(s0, d);
  }

  /** The tick the loop runs from `s` leaves capacities, processing times
      and remembered capacities as the event of that tick sets them. */
  lemma {:induction false} LoopTickKeepsEvents(s: Sim, d: seq<real>)
    requires Wf(s) && ValidDraws(|s.alts|, d)
    ensures var r := Tick(s.(headline := DetermineHeadline(s)), d);
      var e := HandleEvents(s);
      && r.degraded == e.degraded
      && forall j :: 0 <= j < |s.alts| ==>
           r.alts[j].capacity == e.alts[j].capacity && r.alts[j].time == e.alts[j].time
  {
    var s0 := s.(headline := DetermineHeadline(s));
    EventsIgnoreHeadline(s, DetermineHeadline(s));
    TickKeepsCapacities(s0, d);
  }

  /** Over ticks that neither start nor end the degradation, capacities,
      processing times and the remembered capacities stay as they are,
      whatever the controller and the traffic do. */
  lemma {:induction false} AdvanceKeepsCapacities(s: Sim, draws: seq<seq<real>>)
    requires Wf(s) && DrawsFor(|s.alts|, draws)
    requires forall t :: s.tick <= t < s.tick + |draws| ==> Quiet(s.params, t)
    ensures var r := Advance(s, draws);
      && r.degraded == s.degraded
      && forall j :: 0 <= j < |s.alts| ==>
           r.alts[j].capacity == s.alts[j].capacity && r.alts[j].time == s.alts[j].time
    decreases |draws|
  {
    if |draws| > 0 {
      var s1 := Tick(s.(headline := DetermineHeadline(s)), draws[0]);
      assert && Wf(s1) && |s1.alts| == |s.alts| && s1.tick == s.tick + 1 && s1.params == s.params
             && DrawsFor(|s1.alts|, draws[1..]) && Advance(s, draws) == Advance(s1, draws[1..]) by {
        AdvanceStep(s, draws);
      }
      assert s1.degraded == s.degraded && forall j :: 0 <= j < |s.alts| ==>
               s1.alts[j].capacity == s.alts[j].capacity && s1.alts[j].time == s.alts[j].time by {
        assert Quiet(s.params, s.tick);
        QuietTickKeepsCapacities(s, draws[0]);
      }
      AdvanceKeepsCapacities(s1, draws[1..]);
    }
  }

  /** Over draws whose ticks after the first neither start nor end the
      degradation, the state reached keeps the capacities, processing times
      and remembered capacities the first tick's event left. */
  lemma {:induction false} AdvanceKeepsEvents(s: Sim, draws: seq<seq<real>>)
    requires Wf(s) && DrawsFor(|s.alts|, draws) && |draws| > 0
    requires forall t :: s.tick < t < s.tick + |draws| ==> Quiet(s.params, t)
    ensures var r := Advance(s, draws);
      var e := HandleEvents(s);
      && r.degraded == e.degraded
      && forall j :: 0 <= j < |s.alts| ==>
           r.alts[j].capacity == e.alts[j].capacity && r.alts[j].time == e.alts[j].time
  {
    var s1 := Tick(s.(headline := DetermineHeadline(s)), draws[0]);
    var e := HandleEvents(s);
    var rest := draws[1..];
    assert && Wf(s1) && |s1.alts| == |s.alts| && s1.tick == s.tick + 1 && s1.params == s.params
           && DrawsFor(|s1.alts|, rest) && Advance(s, draws) == Advance(s1, rest) by {
      AdvanceStep(s, draws);
    }
    assert s1.degraded == e.degraded && forall j :: 0 <= j < |s.alts| ==>
             s1.alts[j].capacity == e.alts[j].capacity && s1.alts[j].time == e.alts[j].time by {
      LoopTickKeepsEvents(s, draws[0]);
    }
    AdvanceKeepsCapacities(s1, rest);
  }

  /** Running from the start tick of a degradation up to its end tick, the
      state reached keeps what the start left: so `DegradationRestores` and
      its companions apply to the state the loop actually reaches. */
  lemma {:induction false} DegradationReachesEnd(s: Sim, draws: seq<seq<real>>)
    requires Wf(s) && DegradedTarget(s).Some? && DrawsFor(|s.alts|, draws)
    requires s.params.degradation.value.startTick == Some(s.tick)
    requires DegradationEnd(s.params.degradation.value) == Some(s.tick + |draws|)
    ensures AtDegradationEnd(s, Advance(s, draws))
  {
    var endTick := s.tick + |draws|;
    assert DegradationEnd(s.params.degradation.value) == Some(endTick);
    var mid := Advance(s, draws);
    assert mid.tick == endTick;
    assert forall t :: s.tick < t < s.tick + |draws| ==> Quiet(s.params, t) by {
      QuietInside(s.params, s.tick, endTick);
    }
    AdvanceKeepsEvents(s, draws);
    AtDegradationEndIntro(s, mid);
  }

  /** A degradation of a positive capacity, run through the simulator's own
      ticks for exactly its duration, is undone by the event at its end tick:
      the capacity and the processing time are those before the start, and the
      remembered value is dropped. */
  lemma {:induction false} RunRestoresDegradation(s: Sim, draws: seq<seq<real>>)
    requires Wf(s) && DegradedTarget(s).Some? && DrawsFor(|s.alts|, draws)
    requires var d := s.params.degradation.value;
      && d.startTick == Some(s.tick) && d.duration.Some? && d.duration.value > 0
      && |draws| == d.duration.value
    requires var i := DegradedTarget(s).value; s.alts[i].capacity.Val? && s.alts[i].capacity.v > 0.0
    requires var i := DegradedTarget(s).value; s.alts[i].time == TimeOfCapacity(s.alts[i].capacity)
    ensures var i := DegradedTarget(s).value;
      var r := HandleEvents(Advance(s, draws));
      && r.alts[i].capacity == s.alts[i].capacity
      && r.alts[i].time == s.alts[i].time
      && s.alts[i].name !in r.degraded
  {
    var d := s.params.degradation.value;
    assert DegradationEnd(d) == Some(s.tick + |draws|);
    var mid := Advance(s, draws);
    assert AtDegradationEnd(s, mid) by {
      DegradationReachesEnd(s, draws);
    }
    DegradationRestores(s, mid);
  }

  /** Strictly between the start and the end tick nothing happens. */
  lemma {:induction false} QuietInside(p: Params, start: int, end: int)
    requires p.degradation.Some? && p.degradation.value.startTick == Some(start)
    requires DegradationEnd(p.degradation.value) == Some(end)
    ensures forall t :: start < t < end ==> Quiet(p, t)
  {
    forall t | start < t < end
      ensures Quiet(p, t)
    {
      assert t != start && t != end;
    }
  }

  /** While the configured end is not passed, the running loop's final state
      is the one `Advance` reaches (up to the running flag it clears), and
      it hands out one snapshot per draw vector. */
  lemma {:induction false} LoopFollowsAdvance(s: Sim, draws: seq<seq<real>>)
    requires Wf(s) && s.running && DrawsFor(|s.alts|, draws)
    requires s.params.totalSimulationTicks.None? || s.tick + |draws| <= s.params.totalSimulationTicks.value + 1
    ensures Lawful(Tick)
    ensures var o := Loop(Tick, s, draws);
      && o.last.(running := true) == Advance(s, draws)
      && |o.snapshots| == |draws|
    decreases |draws|
  {
    TickLawful();
    if |draws| > 0 {
      var s0 := s.(headline := DetermineHeadline(s));
      var s1 := Tick(s0, draws[0]);
      var rest := draws[1..];
      assert && Wf(s1) && s1.running && s1.tick == s.tick + 1 && s1.params == s.params
             && |s1.alts| == |s.alts| && DrawsFor(|s1.alts|, rest)
             && Advance(s, draws) == Advance(s1, rest) by {
        AdvanceStep(s, draws);
      }
      assert !Past(s) && ValidDraws(|s.alts|, draws[0]);
      var o := Loop(Tick, s1, rest);
      assert Loop(Tick, s, draws) == Outcome([TakeSnapshot(s0)] + o.snapshots, o.summary, o.last);
      LoopFollowsAdvance(s1, rest);
    }
  }
}
