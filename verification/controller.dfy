/** The EPP controller: each tick it classifies the main queue, runs the
    circuit breaker, opportunistically activates the fastest idle
    alternative, picks a ready target by ranking plus a persistent
    round-robin cursor, moves a clamped share of the main queue there, and
    retires idle alternatives under hysteresis when there is no glitch. */
module Controller {
  import opened Js
  import opened Pathways
  import opened Ordering
  import opened State

  const MostEconomical: string := "mostEconomical"
  const LeastCongested: string := "leastCongested"

  // ----- what the controller may change ------------------------------------

  /** The controller touches only queues (by moving transactions), activation
      records, its own fields, the glitch and switch counters and the
      movement log; it never loses or invents a transaction and only ever
      appends to the movement log. */
  predicate ControlFrame(s: Sim, r: Sim) {
    && r.params == s.params && r.tick == s.tick && r.running == s.running
    && r.degraded == s.degraded && r.headline == s.headline
    && r.stats.generated == s.stats.generated
    && r.stats.processedMain == s.stats.processedMain
    && r.stats.processedAlt == s.stats.processedAlt
    && r.stats.maxMainQueue == s.stats.maxMainQueue
    && r.act.Keys == s.act.Keys
    && r.main == s.main.(queue := r.main.queue)
    && |r.alts| == |s.alts|
    && (forall j :: 0 <= j < |s.alts| ==> r.alts[j] == s.alts[j].(queue := r.alts[j].queue))
    && Queued(r) == Queued(s)
    && multiset(AllQueued(r)) == multiset(AllQueued(s))
    && s.movements <= r.movements
  }

  lemma {:induction false} FrameTrans(a: Sim, b: Sim, c: Sim)
    requires ControlFrame(a, b) && ControlFrame(b, c)
    ensures ControlFrame(a, c)
  {
    assert forall j :: 0 <= j < |a.alts| ==> c.alts[j] == a.alts[j].(queue := c.alts[j].queue) by {
      forall j | 0 <= j < |a.alts|
        ensures c.alts[j] == a.alts[j].(queue := c.alts[j].queue)
      {
        assert b.alts[j] == a.alts[j].(queue := b.alts[j].queue);
      }
    }
  }

  lemma {:induction false} FrameKeepsWf(s: Sim, r: Sim)
    requires Wf(s) && ControlFrame(s, r)
    ensures Wf(r)
    ensures Names(r.alts) == Names(s.alts)
  {
    assert forall j :: 0 <= j < |s.alts| ==> r.alts[j].name == s.alts[j].name by {
      forall j | 0 <= j < |s.alts|
        ensures r.alts[j].name == s.alts[j].name
      {
        assert r.alts[j] == s.alts[j].(queue := r.alts[j].queue);
      }
    }
  }

  // ----- severity, strategy -------------------------------------------------

  function Level(s: Sim): Level {
    SeverityOf(|s.main.queue|, s.params.settings.severity)
  }

  /** `adaptiveStrategy.default || 'leastCongested'`, replaced by `onCritical`
      on a critical glitch when adaptive switching is enabled. */
  function Strategy(a: AdaptiveStrategy, level: Level): (r: string)
    ensures r == "" ==> a.enabled && level == Critical && a.onCritical == ""
    ensures r == MostEconomical ==>
              a.defaultStrategy == MostEconomical || (a.enabled && level == Critical && a.onCritical == MostEconomical)
  {
    if a.enabled && level == Critical then a.onCritical
    else if a.defaultStrategy == "" then LeastCongested
    else a.defaultStrategy
  }

  lemma {:induction false} StrategyChoice(a: AdaptiveStrategy, level: Level)
    ensures a.enabled && level == Critical ==> Strategy(a, level) == a.onCritical
    ensures !(a.enabled && level == Critical) ==>
              Strategy(a, level) == (if a.defaultStrategy == "" then LeastCongested else a.defaultStrategy)
  {}

  /** `gasFee || Infinity`. */
  function GasKey(fee: Option<real>): Ext {
    if fee.Some? && fee.value != 0.0 then Fin(fee.value) else Inf
  }

  /** Sort key of a ready candidate: ascending gas fee for
      'mostEconomical', ascending queue length for any other strategy. */
  function DistributionKey(p: Pathway, strategy: string): Ext {
    if strategy == MostEconomical then GasKey(p.config.gasFee) else Fin(|p.queue| as real)
  }

  // ----- target selection ----------------------------------------------------

  /** The ready alternatives from index `k` on, in configuration order. */
  function ReadyFrom(s: Sim, k: nat, strategy: string): (c: seq<Cand>)
    requires Wf(s) && k <= |s.alts|
    ensures InConfigOrder(c)
    ensures forall x :: x in c ==> k <= x.idx < |s.alts| && x == Cand(DistributionKey(s.alts[x.idx], strategy), x.idx)
    ensures forall j :: k <= j < |s.alts| ==>
              (Ready(s, j) <==> Cand(DistributionKey(s.alts[j], strategy), j) in c)
    decreases |s.alts| - k
  {
    if k == |s.alts| then []
    else
      var rest := ReadyFrom(s, k + 1, strategy);
      var here := Cand(DistributionKey(s.alts[k], strategy), k);
      assert here !in rest;
      if Ready(s, k) then [here] + rest else rest
  }

  /** The ready alternatives sorted by the strategy (stable). */
  function Ranking(s: Sim, strategy: string): (r: seq<Cand>)
    requires Wf(s)
    ensures Ranked(r)
    ensures forall x :: x in r ==>
              x.idx < |s.alts| && Ready(s, x.idx) && x == Cand(DistributionKey(s.alts[x.idx], strategy), x.idx)
    ensures forall j :: 0 <= j < |s.alts| && Ready(s, j) ==>
              Cand(DistributionKey(s.alts[j], strategy), j) in r
  {
    var c := ReadyFrom(s, 0, strategy);
    var r := SortStable(c);
    assert forall x :: x in r <==> x in c by {
      forall x
        ensures x in r <==> x in c
      {
        assert x in r <==> x in multiset(r);
        assert x in c <==> x in multiset(c);
      }
    }
    r
  }

  /** The cursor wraps to 0 once it has run past the candidate list. */
  function Wrap(cursor: nat, n: nat): nat {
    if cursor >= n then 0 else cursor
  }

  /** `_selectPathwayForDistribution`: None (cursor untouched) when nothing is
      ready; otherwise the ranked candidate at the wrapped cursor, and the
      cursor moves one past it. */
  function Select(s: Sim, strategy: string): (r: (Controller, Option<nat>))
    requires Wf(s)
    ensures r.1.None? <==> forall j :: 0 <= j < |s.alts| ==> !Ready(s, j)
    ensures r.1.None? ==> r.0 == s.ctl
    ensures r.1.Some? ==>
              && r.1.value < |s.alts| && Ready(s, r.1.value)
              && var ranking := Ranking(s, strategy);
                 var pos := Wrap(s.ctl.cursor, |ranking|);
                 && pos < |ranking|
                 && ranking[pos].idx == r.1.value
                 && r.0 == s.ctl.(cursor := pos + 1)
  {
    var ranking := Ranking(s, strategy);
    if |ranking| == 0 then
      (s.ctl, None)
    else
      var pos := Wrap(s.ctl.cursor, |ranking|);
      assert ranking[pos] in ranking;
      (s.ctl.(cursor := pos + 1), Some(ranking[pos].idx))
  }

  /** Position `b + m` taken around a ring of `n` (for `b < n`, `m <= n`). */
  function Rot(b: int, m: int, n: int): int {
    if b + m < n then b + m else b + m - n
  }

  /** The alternatives chosen by `k` consecutive selections from an
      unchanging ranking, starting with the cursor at `cursor`. */
  function Chosen(ranking: seq<Cand>, cursor: nat, k: nat): (c: seq<nat>)
    requires |ranking| > 0
    ensures |c| == k
    ensures forall m :: 0 <= m < k ==>
              c[m] == ranking[RingPos(Wrap(cursor, |ranking|), m, |ranking|)].idx
    decreases k
  {
    if k == 0 then []
    else
      var p := Wrap(cursor, |ranking|);
      [ranking[p].idx] + Chosen(ranking, p + 1, k - 1)
  }

  /** The position `m` steps after `b` around a ring of `n` positions, each
      step moving one on and wrapping past the end as the cursor does. */
  function RingPos(b: nat, m: nat, n: nat): (r: nat)
    requires b < n
    ensures r < n
    decreases m
  {
    if m == 0 then b else RingPos(Wrap(b + 1, n), m - 1, n)
  }

  /** The cursor rotates: the m-th choice is the candidate `m` places after
      the wrapped start, around the ring. */
  lemma {:induction false} ChosenRotates(ranking: seq<Cand>, cursor: nat, k: nat)
    requires 0 < |ranking| && k <= |ranking|
    ensures forall m :: 0 <= m < k ==>
              0 <= Rot(Wrap(cursor, |ranking|), m, |ranking|) < |ranking|
              && Chosen(ranking, cursor, k)[m] == ranking[Rot(Wrap(cursor, |ranking|), m, |ranking|)].idx
    decreases k
  {
    if k > 0 {
      var n := |ranking|;
      var p := Wrap(cursor, n);
      ChosenRotates(ranking, p + 1, k - 1);
      var c := Chosen(ranking, cursor, k);
      forall m | 0 <= m < k
        ensures 0 <= Rot(p, m, n) < n && c[m] == ranking[Rot(p, m, n)].idx
      {
        if m > 0 {
          assert c[m] == Chosen(ranking, p + 1, k - 1)[m - 1];
        }
      }
    }
  }

  /** Round-robin fairness on a fixed ranking: `n` consecutive selections
      from `n` candidates choose every candidate exactly once. */
  lemma {:induction false} ChosenCoversAll(ranking: seq<Cand>, cursor: nat)
    requires 0 < |ranking|
    requires forall a, b :: 0 <= a < b < |ranking| ==> ranking[a].idx != ranking[b].idx
    ensures var c := Chosen(ranking, cursor, |ranking|);
      && (forall a, b :: 0 <= a < b < |c| ==> c[a] != c[b])
      && (forall x :: x in ranking ==> x.idx in c)
  {
    var n := |ranking|;
    var b0 := Wrap(cursor, n);
    var c := Chosen(ranking, cursor, n);
    ChosenRotates(ranking, cursor, n);
    forall a, b | 0 <= a < b < n
      ensures c[a] != c[b]
    {
      assert Rot(b0, a, n) != Rot(b0, b, n);
    }
    forall x | x in ranking
      ensures x.idx in c
    {
      var p :| 0 <= p < n && ranking[p] == x;
      var m := if p >= b0 then p - b0 else p + n - b0;
      assert c[m] == x.idx;
    }
  }

  /** The simulation `s` with the round-robin cursor set to `c`. */
  function AtCursor(s: Sim, c: nat): (r: Sim)
    ensures r.ctl.cursor == c && r == s.(ctl := r.ctl)
  {
    s.(ctl := s.ctl.(cursor := c))
  }

  /** `k` consecutive selections on a simulation that changes only by the
      cursor each selection moves, starting with the cursor at `c`; returns
      the chosen alternatives' indices. */
  function SelectSequenceFrom(s: Sim, strategy: string, c: nat, k: nat): seq<nat>
    requires Wf(s)
    decreases k
  {
    if k == 0 then []
    else
      var step := Select(AtCursor(s, c), strategy);
      if step.1.None? then [] else [step.1.value] + SelectSequenceFrom(s, strategy, step.0.cursor, k - 1)
  }

  /** `k` consecutive selections on an otherwise unchanged simulation. */
  function SelectSequence(s: Sim, strategy: string, k: nat): seq<nat>
    requires Wf(s)
  {
    SelectSequenceFrom(s, strategy, s.ctl.cursor, k)
  }

  lemma {:induction false} ReadyFromIgnoresController(s: Sim, s1: Sim, k: nat, strategy: string)
    requires Wf(s) && s1 == s.(ctl := s1.ctl) && k <= |s.alts|
    ensures Wf(s1) && ReadyFrom(s1, k, strategy) == ReadyFrom(s, k, strategy)
    decreases |s.alts| - k
  {
    if k < |s.alts| {
      ReadyFromIgnoresController(s, s1, k + 1, strategy);
    }
  }

  /** Moving the cursor leaves the ranking alone. */
  lemma {:induction false} RankingIgnoresCursor(s: Sim, strategy: string, c: nat)
    requires Wf(s)
    ensures Wf(AtCursor(s, c)) && Ranking(AtCursor(s, c), strategy) == Ranking(s, strategy)
  {
    ReadyFromIgnoresController(s, AtCursor(s, c), 0, strategy);
  }

  /** One selection with the cursor at `c` takes the candidate at the wrapped
      cursor and moves the cursor one past it. */
  lemma {:induction false} SelectAtCursor(s: Sim, strategy: string, c: nat)
    requires Wf(s) && |Ranking(s, strategy)| > 0
    ensures Wf(AtCursor(s, c))
    ensures var pos := Wrap(c, |Ranking(s, strategy)|);
      && pos < |Ranking(s, strategy)|
      && Select(AtCursor(s, c), strategy).1 == Some(Ranking(s, strategy)[pos].idx)
      && Select(AtCursor(s, c), strategy).0.cursor == pos + 1
  {
    RankingIgnoresCursor(s, strategy, c);
    assert Select(AtCursor(s, c), strategy).1.Some? by {
      assert Ranking(s, strategy)[0] in Ranking(AtCursor(s, c), strategy);
    }
  }

  /** Repeated selection from cursor `c` on an otherwise unchanged simulation
      walks the ranking. */
  lemma {:induction false} SelectSequenceFromWalks(s: Sim, strategy: string, c: nat, k: nat)
    requires Wf(s) && |Ranking(s, strategy)| > 0
    ensures SelectSequenceFrom(s, strategy, c, k) == Chosen(Ranking(s, strategy), c, k)
    decreases k
  {
    if k > 0 {
      var ranking := Ranking(s, strategy);
      var pos := Wrap(c, |ranking|);
      SelectAtCursor(s, strategy, c);
      SelectSequenceFromWalks(s, strategy, pos + 1, k - 1);
    }
  }

  /** Repeated selection on an unchanged simulation walks the ranking. */
  lemma {:induction false} SelectSequenceWalks(s: Sim, strategy: string, k: nat)
    requires Wf(s) && |Ranking(s, strategy)| > 0
    ensures SelectSequence(s, strategy, k) == Chosen(Ranking(s, strategy), s.ctl.cursor, k)
  {
    SelectSequenceFromWalks(s, strategy, s.ctl.cursor, k);
  }

  /** Fairness over ticks: with the same ready set, `n` consecutive glitch
      ticks send load to each of the `n` ready alternatives exactly once,
      whatever the cursor was. */
  lemma {:induction false} RoundRobinFair(s: Sim, strategy: string)
    requires Wf(s)
    requires |Ranking(s, strategy)| > 0
    ensures var n := |Ranking(s, strategy)|;
      var chosen := SelectSequence(s, strategy, n);
      && |chosen| == n
      && (forall a, b :: 0 <= a < b < n ==> chosen[a] != chosen[b])
      && (forall j :: 0 <= j < |s.alts| && Ready(s, j) ==> j in chosen)
  {
    var ranking := Ranking(s, strategy);
    SelectSequenceWalks(s, strategy, |ranking|);
    forall a, b | 0 <= a < b < |ranking|
      ensures ranking[a].idx != ranking[b].idx
    {
      RankedDistinct(ranking, a, b);
      assert ranking[a] in ranking && ranking[b] in ranking;
    }
    ChosenCoversAll(ranking, s.ctl.cursor);
    forall j | 0 <= j < |s.alts| && Ready(s, j)
      ensures j in Chosen(ranking, s.ctl.cursor, |ranking|)
    {
      assert Cand(DistributionKey(s.alts[j], strategy), j) in ranking;
    }
  }

  // ----- activation ------------------------------------------------------------

  /** Inactive and out of its cooldown (`minCoolDownTicks || 0`). */
  predicate Eligible(s: Sim, i: int)
    requires Wf(s) && 0 <= i < |s.alts|
  {
    var st := s.act[s.alts[i].name];
    !st.isActive
    && ElapsedAtLeast(s.tick, st.deactivatedTick, IntOr(s.params.settings.cooldown.minCoolDownTicks, 0))
  }

  /** The eligible alternatives from index `k` on, keyed by processing time. */
  function EligibleFrom(s: Sim, k: nat): (c: seq<Cand>)
    requires Wf(s) && k <= |s.alts|
    ensures InConfigOrder(c)
    ensures forall x :: x in c ==> k <= x.idx < |s.alts| && x == Cand(s.alts[x.idx].time, x.idx)
    ensures forall j :: k <= j < |s.alts| ==> (Eligible(s, j) <==> Cand(s.alts[j].time, j) in c)
    decreases |s.alts| - k
  {
    if k == |s.alts| then []
    else
      var rest := EligibleFrom(s, k + 1);
      var here := Cand(s.alts[k].time, k);
      assert here !in rest;
      if Eligible(s, k) then [here] + rest else rest
  }

  /** The fastest eligible alternative, earliest configured among equals. */
  predicate Fastest(s: Sim, i: int)
    requires Wf(s) && 0 <= i < |s.alts|
  {
    && Eligible(s, i)
    && forall j :: 0 <= j < |s.alts| && Eligible(s, j) ==>
         ExtLe(s.alts[i].time, s.alts[j].time) && (s.alts[i].time == s.alts[j].time ==> i <= j)
  }

  /** `_tryActivateNewPathway`: activates exactly the fastest eligible
      alternative, or does nothing when none is eligible. */
  function TryActivate(s: Sim): (r: Sim)
    requires Wf(s)
    ensures (forall j :: 0 <= j < |s.alts| ==> !Eligible(s, j)) ==> r == s
    ensures (exists j :: 0 <= j < |s.alts| && Eligible(s, j)) ==>
              exists i :: 0 <= i < |s.alts| && Fastest(s, i) && r == Activate(s, s.alts[i].name)
  {
    var c := EligibleFrom(s, 0);
    if |c| == 0 then
      s
    else
      var ranking := SortStable(c);
      var best := ranking[0];
      assert best in multiset(c);
      var i := best.idx;
      assert Fastest(s, i) by {
        forall j | 0 <= j < |s.alts| && Eligible(s, j)
          ensures ExtLe(s.alts[i].time, s.alts[j].time) && (s.alts[i].time == s.alts[j].time ==> i <= j)
        {
          var x := Cand(s.alts[j].time, j);
          assert x in multiset(ranking);
          FirstIsLeast(ranking, x);
        }
      }
      Activate(s, s.alts[i].name)
  }

  lemma {:induction false} TryActivateFrame(s: Sim)
    requires Wf(s)
    ensures ControlFrame(s, TryActivate(s))
  {}

  // ----- redistribution ------------------------------------------------------------

  /** The share of the main queue to move: `percentageToMoveCritical` on a
      critical glitch when set, else `percentageToMove || 0.5`. */
  function Share(st: ControllerSettings, level: Level): (p: real)
    ensures p != 0.0
    ensures p == 0.5 || Some(p) == st.glitch.percentageToMove
            || (level == Critical && Some(p) == st.severity.percentageToMoveCritical)
    ensures level != Critical ==> p == RealOr(st.glitch.percentageToMove, 0.5)
  {
    var general := RealOr(st.glitch.percentageToMove, 0.5);
    if level == Critical then RealOr(st.severity.percentageToMoveCritical, general) else general
  }

  /** A share in (0, 1] of a positive count rounds up to between 1 and the
      count. */
  lemma {:induction false} CeilOfShare(q: int, share: real)
    requires q > 0
    ensures 0.0 < share <= 1.0 ==> 1 <= Ceil(q as real * share) <= q
  {
    if 0.0 < share <= 1.0 {
      var x := q as real * share;
      assert 0.0 < x;
      assert x <= q as real by {
        assert q as real - x == q as real * (1.0 - share);
      }
      assert (-x).Floor >= -q;
      assert (-x).Floor < 0;
    }
  }

  /** The amount before congestion halving: the least of `ceil(q * share)`,
      the per-move maximum (`|| q`) and `q`. */
  function Unhalved(q: int, st: ControllerSettings, level: Level): (m: int)
    ensures m <= Ceil(q as real * Share(st, level)) && m <= q
    ensures IntOrInf(st.glitch.maxTransactionsToMoveInOneGo).Some? ==>
              m <= st.glitch.maxTransactionsToMoveInOneGo.value
    ensures || m == Ceil(q as real * Share(st, level)) || m == q
            || (IntOrInf(st.glitch.maxTransactionsToMoveInOneGo).Some? &&
                m == st.glitch.maxTransactionsToMoveInOneGo.value)
  {
    Min(Min(Ceil(q as real * Share(st, level)), IntOr(st.glitch.maxTransactionsToMoveInOneGo, q)), q)
  }

  /** How many transactions to move from a main queue of length `q > 0` to
      a target of length `altQ`: `ceil(q * share)`, clamped to the per-move
      maximum (`|| q`) and to `q`, halved (floor) when the target has
      reached its congestion threshold. */
  function MoveAmount(q: int, altQ: int, st: ControllerSettings, level: Level, congestion: Option<int>): (n: int)
    requires q > 0
    ensures !Reached(altQ, IntOrInf(congestion)) ==> n == Unhalved(q, st, level)
    ensures Reached(altQ, IntOrInf(congestion)) ==>
              2 * n <= Unhalved(q, st, level) <= 2 * n + 1
    ensures n <= q
    ensures IntOrInf(st.glitch.maxTransactionsToMoveInOneGo).Some? && n > 0 ==>
              n <= st.glitch.maxTransactionsToMoveInOneGo.value
    ensures n > 0 ==> n <= Ceil(q as real * Share(st, level))
    ensures Reached(altQ, IntOrInf(congestion)) && n > 0 ==> 2 * n <= Min(Ceil(q as real * Share(st, level)), q)
    ensures (&& 0.0 < Share(st, level) <= 1.0
             && IntOrInf(st.glitch.maxTransactionsToMoveInOneGo).None?
             && !Reached(altQ, IntOrInf(congestion))) ==> n == Ceil(q as real * Share(st, level)) && n >= 1
  {
    CeilOfShare(q, Share(st, level));
    var n := Unhalved(q, st, level);
    if Reached(altQ, IntOrInf(congestion)) then n / 2 else n
  }

  lemma {:induction false} MoveFrame(s: Sim, count: int, target: string)
    ensures var r := Move(s, count, target).0;
      && ControlFrame(s, r) && r.act == s.act && r.ctl == s.ctl && r.stats == s.stats
  {
    var r := Move(s, count, target).0;
    if FindAlt(s.alts, target).Some? && count > 0 {
      var i := FindAlt(s.alts, target).value;
      assert forall j :: 0 <= j < |s.alts| ==> r.alts[j] == s.alts[j].(queue := r.alts[j].queue) by {
        forall j | 0 <= j < |s.alts|
          ensures r.alts[j] == s.alts[j].(queue := r.alts[j].queue)
        {
          if j != i {
            assert r.alts[j] == s.alts[j];
          }
        }
      }
    }
  }

  /** `_proceedToMoveTransactions` towards alternative `i`. */
  function ProceedToMove(s: Sim, level: Level, i: nat): (r: Sim)
    requires Wf(s) && i < |s.alts|
    ensures ControlFrame(s, r) && r.act == s.act && r.ctl == s.ctl && r.stats == s.stats
    ensures |s.main.queue| == 0 ==> r == s
    ensures |s.main.queue| > 0 ==>
      var n := MoveAmount(|s.main.queue|, |s.alts[i].queue|, s.params.settings, level,
                          IntOrInf(s.alts[i].config.congestionThreshold));
        (n > 0 ==> r == Move(s, n, s.alts[i].name).0) && (n <= 0 ==> r == s)
  {
    var q := |s.main.queue|;
    if q == 0 then s
    else
      var n := MoveAmount(q, |s.alts[i].queue|, s.params.settings, level,
                          IntOrInf(s.alts[i].config.congestionThreshold));
      if n > 0 then
        FindAltUnique(s.alts, i);
        MoveFrame(s, n, s.alts[i].name);
        Move(s, n, s.alts[i].name).0
      else s
  }

  // ----- circuit breaker -------------------------------------------------------------

  /** Trip condition: enabled, some alternative active, and every active
      alternative at or over `criticalAltQueueThreshold || Infinity`. */
  predicate BreakerCondition(s: Sim)
    requires Wf(s)
    ensures BreakerCondition(s) ==> IntOrInf(s.params.settings.breaker.criticalAltQueueThreshold).Some?
    ensures BreakerCondition(s) ==>
              exists i :: 0 <= i < |s.alts| && s.act[s.alts[i].name].isActive &&
                |s.alts[i].queue| >= s.params.settings.breaker.criticalAltQueueThreshold.value
  {
    var cb := s.params.settings.breaker;
    && cb.enabled
    && (exists i :: 0 <= i < |s.alts| && s.act[s.alts[i].name].isActive)
    && (forall i :: 0 <= i < |s.alts| && s.act[s.alts[i].name].isActive ==>
          Reached(|s.alts[i].queue|, IntOrInf(cb.criticalAltQueueThreshold)))
  }

  /** Every alternative, active or not, is under `threshold`. */
  predicate AllBelow(s: Sim, threshold: int) {
    forall i :: 0 <= i < |s.alts| ==> |s.alts[i].queue| < threshold
  }

  function RecoveryInterval(s: Sim): int {
    IntOr(s.params.settings.breaker.recoveryCheckIntervalTicks, 10)
  }

  function RecoveryThreshold(s: Sim): int {
    IntOr(s.params.settings.breaker.recoveryThresholdQueueSize, 5)
  }

  /** `_handleCircuitBreakerActive` with `_attemptRecovery`. */
  function HandleBreakerActive(s: Sim): (r: Sim)
    ensures r == s.(ctl := r.ctl) && r.ctl.cursor == s.ctl.cursor
    ensures s.ctl.recoveryTicker + 1 < RecoveryInterval(s) ==>
              r.ctl == s.ctl.(recoveryTicker := s.ctl.recoveryTicker + 1)
    ensures s.ctl.recoveryTicker + 1 >= RecoveryInterval(s) ==>
              && r.ctl.recoveryTicker == 0
              && (r.ctl.tripped <==> s.ctl.tripped && !AllBelow(s, RecoveryThreshold(s)))
  {
    var t := s.ctl.recoveryTicker + 1;
    if t >= RecoveryInterval(s) then
      var healthy := AllBelow(s, RecoveryThreshold(s));
      s.(ctl := s.ctl.(recoveryTicker := 0, tripped := if healthy then false else s.ctl.tripped))
    else
      s.(ctl := s.ctl.(recoveryTicker := t))
  }

  // ----- glitch and normal handling ----------------------------------------------------

  /** Moving the cursor touches nothing the controller frame protects. */
  lemma {:induction false} CursorFrame(s: Sim, c: Controller)
    requires Wf(s)
    ensures Wf(s.(ctl := c)) && ControlFrame(s, s.(ctl := c))
  {
    assert AllQueued(s.(ctl := c)) == AllQueued(s);
  }

  /** Select a target with the round-robin cursor and move part of the main
      queue there (the tail of `_handleGlitchCondition`). */
  function Redistribute(s: Sim, level: Level): (r: Sim)
    requires Wf(s)
    ensures ControlFrame(s, r)
    ensures r.stats.glitchCount == s.stats.glitchCount && r.ctl.tripped == s.ctl.tripped
    ensures var sel := Select(s, Strategy(s.params.settings.adaptive, level));
      && r.ctl == sel.0 && r.act == s.act && r.stats == s.stats
      && (sel.1.None? ==> r == s.(ctl := sel.0))
      && (sel.1.Some? ==>
            var i := sel.1.value;
            var q := |s.main.queue|;
            var n := if q == 0 then 0
                     else MoveAmount(q, |s.alts[i].queue|, s.params.settings, level,
                                     IntOrInf(s.alts[i].config.congestionThreshold));
            && (n <= 0 ==> r == s.(ctl := sel.0))
            && (n > 0 ==>
                  && r.main.queue == s.main.queue[n..]
                  && r.alts[i].queue == s.alts[i].queue + s.main.queue[..n]
                  && (forall j :: 0 <= j < |s.alts| && j != i ==> r.alts[j] == s.alts[j])
                  && r.movements == s.movements + [Movement(s.alts[i].name, n)]))
  {
    var sel := Select(s, Strategy(s.params.settings.adaptive, level));
    var s2 := s.(ctl := sel.0);
    CursorFrame(s, sel.0);
    match sel.1
    case None => s2
    case Some(i) =>
      FindAltUnique(s2.alts, i);
      var s3 := ProceedToMove(s2, level, i);
      FrameTrans(s, s2, s3);
      s3
  }

  /** `_handleGlitchCondition`: trip the breaker, or activate and then
      redistribute. */
  function HandleGlitch(s: Sim, level: Level): (r: Sim)
    requires Wf(s)
    ensures ControlFrame(s, r)
    ensures BreakerCondition(s) ==>
              r == s.(ctl := s.ctl.(tripped := true, recoveryTicker := 0))
    ensures !BreakerCondition(s) ==> r.ctl.tripped == s.ctl.tripped
    ensures !BreakerCondition(s) ==>
              && Wf(TryActivate(s))
              && r.act == TryActivate(s).act
              && r.ctl == Select(TryActivate(s), Strategy(s.params.settings.adaptive, level)).0
              && r == Redistribute(TryActivate(s), level)
    ensures r.stats.glitchCount == s.stats.glitchCount
  {
    if BreakerCondition(s) then
      s.(ctl := s.ctl.(tripped := true, recoveryTicker := 0))
    else
      var s1 := TryActivate(s);
      TryActivateFrame(s);
      FrameKeepsWf(s, s1);
      var r := Redistribute(s1, level);
      FrameTrans(s, s1, r);
      r
  }

  /** Hysteresis: an active alternative is retired when the main queue is at
      most `deactivateThresholdMainQueue || 0`, its own queue is empty, and it
      has been active `minActiveDurationTicksAlternative || 10` ticks. */
  predicate Retire(s: Sim, i: int)
    requires Wf(s) && 0 <= i < |s.alts|
  {
    var st := s.act[s.alts[i].name];
    var nc := s.params.settings.normal;
    && st.isActive
    && |s.main.queue| <= IntOr(nc.deactivateThresholdMainQueue, 0)
    && |s.alts[i].queue| == 0
    && s.tick - st.activationTick >= IntOr(nc.minActiveDurationTicksAlternative, 10)
  }

  /** The activation record of alternative `i` after `_handleNormalCondition`. */
  function AfterNormal(s: Sim, i: int): ActState
    requires Wf(s) && 0 <= i < |s.alts|
  {
    var st := s.act[s.alts[i].name];
    if Retire(s, i) then st.(isActive := false, deactivatedTick := At(s.tick)) else st
  }

  /** The `forEach` of `_handleNormalCondition` from index `k` on. */
  function DeactivateFrom(s: Sim, k: nat): (r: Sim)
    requires Wf(s) && k <= |s.alts|
    ensures r == s.(act := r.act) && r.act.Keys == s.act.Keys
    ensures forall j :: 0 <= j < k ==> r.act[s.alts[j].name] == s.act[s.alts[j].name]
    ensures forall j :: k <= j < |s.alts| ==> r.act[s.alts[j].name] == AfterNormal(s, j)
    ensures forall key :: key in s.act && key !in Names(s.alts) ==> r.act[key] == s.act[key]
    decreases |s.alts| - k
  {
    if k == |s.alts| then s
    else
      RetireStep(s, k);
      DeactivateFrom(RetireOne(s, k), k + 1)
  }

  /** One pass of the `forEach` body, on alternative `k`. */
  function RetireOne(s: Sim, k: nat): Sim
    requires Wf(s) && k < |s.alts|
  {
    if Retire(s, k) then Deactivate(s, s.alts[k].name) else s
  }

  /** One pass gives alternative `k` its record after the check and changes
      no other record, nor the conditions of the alternatives after it. */
  lemma {:induction false} RetireStep(s: Sim, k: nat)
    requires Wf(s) && k < |s.alts|
    ensures var s1 := RetireOne(s, k);
      && Wf(s1) && s1 == s.(act := s1.act) && s1.act.Keys == s.act.Keys
      && s1.act[s.alts[k].name] == AfterNormal(s, k)
      && (forall key :: key in s.act && key != s.alts[k].name ==> s1.act[key] == s.act[key])
      && (forall j :: 0 <= j < |s.alts| && j != k ==> s1.act[s.alts[j].name] == s.act[s.alts[j].name])
      && (forall j :: k < j < |s.alts| ==> AfterNormal(s1, j) == AfterNormal(s, j))
  {
    var s1 := RetireOne(s, k);
    assert forall j :: 0 <= j < |s.alts| && j != k ==> s.alts[j].name != s.alts[k].name;
  }

  /** `_handleNormalCondition`. */
  function HandleNormal(s: Sim): (r: Sim)
    requires Wf(s)
    ensures ControlFrame(s, r) && r == s.(act := r.act)
    ensures forall j :: 0 <= j < |s.alts| ==> r.act[s.alts[j].name] == AfterNormal(s, j)
  {
    DeactivateFrom(s, 0)
  }

  /** Deactivation fires exactly when all three hysteresis conditions hold;
      inactive alternatives are untouched. */
  lemma {:induction false} DeactivationNeedsAllThree(s: Sim, j: int)
    requires Wf(s) && 0 <= j < |s.alts|
    ensures var before := s.act[s.alts[j].name];
      var after := HandleNormal(s).act[s.alts[j].name];
      && (!before.isActive ==> after == before)
      && (before.isActive && !after.isActive <==>
            && before.isActive
            && |s.main.queue| <= IntOr(s.params.settings.normal.deactivateThresholdMainQueue, 0)
            && |s.alts[j].queue| == 0
            && s.tick - before.activationTick
               >= IntOr(s.params.settings.normal.minActiveDurationTicksAlternative, 10))
  {}

  // ----- the reactive check ------------------------------------------------------------

  /** Counting a glitch touches nothing the controller frame protects. */
  lemma {:induction false} RecordGlitchFrame(s: Sim)
    requires Wf(s)
    ensures Wf(RecordGlitch(s)) && ControlFrame(s, RecordGlitch(s))
  {
    assert AllQueued(RecordGlitch(s)) == AllQueued(s);
  }

  /** The glitch branch of `checkAndReact`: count the glitch, then handle it. */
  function ReactToGlitch(s: Sim, level: Level): (r: Sim)
    requires Wf(s)
    ensures Wf(r) && ControlFrame(s, r)
    ensures r.stats.glitchCount == s.stats.glitchCount + 1
    ensures BreakerCondition(s) ==>
              r == RecordGlitch(s).(ctl := s.ctl.(tripped := true, recoveryTicker := 0))
    ensures !BreakerCondition(s) ==>
              && Wf(TryActivate(RecordGlitch(s)))
              && r == Redistribute(TryActivate(RecordGlitch(s)), level)
  {
    var s1 := RecordGlitch(s);
    RecordGlitchFrame(s);
    var r := HandleGlitch(s1, level);
    FrameTrans(s, s1, r);
    FrameKeepsWf(s, r);
    r
  }

  /** `checkAndReact`. */
  function CheckAndReact(s: Sim): (r: Sim)
    requires Wf(s)
    ensures Wf(r) && ControlFrame(s, r)
    ensures s.ctl.tripped ==> r == s.(ctl := r.ctl)
    ensures !s.ctl.tripped ==>
              r.stats.glitchCount == s.stats.glitchCount + (if Level(s) == NoGlitch then 0 else 1)
  {
    if s.ctl.tripped then
      HandleBreakerActive(s)
    else if Level(s) != NoGlitch then
      ReactToGlitch(s, Level(s))
    else
      var r := HandleNormal(s);
      FrameKeepsWf(s, r);
      r
  }

  /** While the breaker is tripped the controller only counts towards the
      next recovery check: no glitch is recorded, nothing is activated,
      deactivated or moved. The check fires when the ticker reaches the
      interval (default 10), resets it, and clears the breaker exactly when
      every alternative's queue is under the recovery threshold (default 5). */
  lemma {:induction false} BreakerSuspendsControl(s: Sim)
    requires Wf(s) && s.ctl.tripped
    ensures var r := CheckAndReact(s);
      && r.act == s.act && r.main == s.main && r.alts == s.alts
      && r.movements == s.movements && r.stats == s.stats
      && r.ctl.cursor == s.ctl.cursor
      && (s.ctl.recoveryTicker + 1 < RecoveryInterval(s) ==>
            r.ctl.tripped && r.ctl.recoveryTicker == s.ctl.recoveryTicker + 1)
      && (s.ctl.recoveryTicker + 1 >= RecoveryInterval(s) ==>
            r.ctl.recoveryTicker == 0 && (r.ctl.tripped <==> !AllBelow(s, RecoveryThreshold(s))))
  {}

  /** On a glitch, the breaker trips exactly under `BreakerCondition`; the
      tripping call resets the ticker and neither activates nor moves. */
  lemma {:induction false} TripIff(s: Sim)
    requires Wf(s) && !s.ctl.tripped && Level(s) != NoGlitch
    ensures var r := CheckAndReact(s);
      && (r.ctl.tripped <==> BreakerCondition(s))
      && (BreakerCondition(s) ==>
            && r.ctl.recoveryTicker == 0 && r.ctl.cursor == s.ctl.cursor
            && r.act == s.act && r.main == s.main && r.alts == s.alts
            && r.movements == s.movements && r.stats.pathSwitches == s.stats.pathSwitches)
  {}

  /** On a glitch that does not trip the breaker, the glitch is counted, the
      fastest eligible alternative is activated, and then the target is
      selected and the move made on the state after that activation. */
  lemma {:induction false} GlitchActivatesThenMoves(s: Sim)
    requires Wf(s) && !s.ctl.tripped && Level(s) != NoGlitch && !BreakerCondition(s)
    ensures var s1 := TryActivate(RecordGlitch(s));
      var r := CheckAndReact(s);
      && Wf(s1)
      && r == Redistribute(s1, Level(s))
      && r.act == s1.act
      && r.ctl == Select(s1, Strategy(s.params.settings.adaptive, Level(s))).0
      && r.stats.glitchCount == s.stats.glitchCount + 1
  {
    assert Wf(RecordGlitch(s));
  }

  /** Without a glitch the breaker never trips and only deactivations happen. */
  lemma {:induction false} NormalOnlyDeactivates(s: Sim)
    requires Wf(s) && !s.ctl.tripped && Level(s) == NoGlitch
    ensures var r := CheckAndReact(s);
      && r.ctl == s.ctl && r.main == s.main && r.alts == s.alts
      && r.movements == s.movements && r.stats == s.stats
      && forall j :: 0 <= j < |s.alts| ==> r.act[s.alts[j].name] == AfterNormal(s, j)
  {}
}
