/** One pathway: a FIFO queue of transactions with a token-bucket processor
    that earns one unit of processing power per busy tick and spends
    `processingTimePerTransaction` of it per completed transaction. */
module Pathways {
  import opened Js

  /** A transaction. The source's id string `T-<tick>-<serial>` is determined
      by these two fields. */
  datatype Tx = Tx(createdAtTick: int, serial: nat)

  /** The configuration record of a pathway (every numeric field optional). */
  datatype PathwayConfig = PathwayConfig(
    name: string,
    capacityTPS: Option<real>,
    loadTPS: Option<real>,
    gasFee: Option<real>,
    congestionThreshold: Option<int>,
    activationDelay: Option<int>)

  /** Run-time state of a pathway. `capacity` is the mutable
      `params.capacityTPS` (changed only by degradation events) and `time` is
      `processingTimePerTransaction`. */
  datatype Pathway = Pathway(
    name: string,
    config: PathwayConfig,
    capacity: Num,
    time: Ext,
    queue: seq<Tx>,
    power: real)

  /** The capacity value read from the configuration. */
  function ConfiguredCapacity(c: Option<real>): Num {
    match c
    case None => Undefined
    case Some(v) => Val(v)
  }

  /** Processing time derived from a capacity number: `n > 0 ? 1 / n : Infinity`
      (so +Infinity capacity gives time 0, and NaN or non-positive gives Infinity). */
  function TimeOfCapacity(n: Num): (t: Ext)
    ensures t.Fin? <==> (n.Val? && n.v > 0.0) || n.PosInf?
    ensures n.PosInf? ==> t == Fin(0.0)
  {
    match n
    case Val(c) => if c > 0.0 then Fin(1.0 / c) else Inf
    case PosInf => Fin(0.0)
    case _ => Inf
  }

  /** A positive capacity `c` gives the processing time `1 / c`. */
  lemma {:induction false} TimeIsReciprocal(n: Num)
    requires n.Val? && n.v > 0.0
    ensures TimeOfCapacity(n).Fin? && TimeOfCapacity(n).v > 0.0
    ensures TimeOfCapacity(n).v * n.v == 1.0
  {}

  /** The constructor: `capacityTPS || 1` and then the derivation above. */
  function NewPathway(name: string, cfg: PathwayConfig): (p: Pathway)
    ensures p.name == name && p.config == cfg && p.queue == [] && p.power == 0.0
    ensures p.capacity == ConfiguredCapacity(cfg.capacityTPS)
  {
    var c := RealOr(cfg.capacityTPS, 1.0);
    Pathway(name, cfg, ConfiguredCapacity(cfg.capacityTPS), TimeOfCapacity(Val(c)), [], 0.0)
  }

  /** The processing time a new pathway starts with: `1 / capacityTPS` for a
      positive capacity, 1 when the capacity is missing or 0, Infinity
      exactly when it is negative. */
  lemma {:induction false} NewPathwayTime(name: string, cfg: PathwayConfig)
    ensures var p := NewPathway(name, cfg);
      && (cfg.capacityTPS.Some? && cfg.capacityTPS.value > 0.0 ==>
            p.time.Fin? && p.time.v * cfg.capacityTPS.value == 1.0)
      && (cfg.capacityTPS.None? || cfg.capacityTPS.value == 0.0 ==> p.time == Fin(1.0))
      && (p.time == Inf <==> cfg.capacityTPS.Some? && cfg.capacityTPS.value < 0.0)
      && (p.time.Fin? ==> p.time.v > 0.0)
  {
    var c := RealOr(cfg.capacityTPS, 1.0);
    if c > 0.0 {
      TimeIsReciprocal(Val(c));
    }
  }

  /** Appends one transaction at the tail. */
  function AddTransaction(p: Pathway, tx: Tx): (r: Pathway)
    ensures |r.queue| == |p.queue| + 1
    ensures r.queue[..|p.queue|] == p.queue && r.queue[|p.queue|] == tx
    ensures r == p.(queue := r.queue)
  {
    p.(queue := p.queue + [tx])
  }

  /** One `AddTransaction` per element of `txs`, in order. Arrivals and moves
      add whole runs this way; the rest of the model appends the run with one
      concatenation, which `AddAllAppends` shows is the same. */
  function AddAll(p: Pathway, txs: seq<Tx>): (r: Pathway)
    decreases |txs|
  {
    if |txs| == 0 then p else AddAll(AddTransaction(p, txs[0]), txs[1..])
  }

  lemma {:induction false} AddAllAppends(p: Pathway, txs: seq<Tx>)
    ensures AddAll(p, txs) == p.(queue := p.queue + txs)
    decreases |txs|
  {
    if |txs| > 0 {
      AddAllAppends(AddTransaction(p, txs[0]), txs[1..]);
      assert p.queue + [txs[0]] + txs[1..] == p.queue + txs;
    }
  }

  /** Removes up to `count` transactions from the head; the removed ones come
      first in the result, in queue order. */
  function ShiftTransactions(p: Pathway, count: int): (r: (Pathway, seq<Tx>))
    ensures r.1 + r.0.queue == p.queue
    ensures |r.1| == if count <= 0 then 0 else Min(count, |p.queue|)
    ensures r.0 == p.(queue := r.0.queue)
  {
    var n := Min(count, |p.queue|);
    if n <= 0 then (p, [])
    else (p.(queue := p.queue[n..]), p.queue[..n])
  }

  /** The inner loop of `process`: while the credit covers one more
      transaction and the queue is not empty, spend `cost` and complete the
      head. Returns (completed, remaining queue, remaining credit). */
  function Drain(queue: seq<Tx>, power: real, cost: real): (r: (seq<Tx>, seq<Tx>, real))
    requires cost > 0.0
    ensures r.0 + r.1 == queue
    ensures r.1 == [] || r.2 < cost
    ensures power >= 0.0 ==> r.2 >= 0.0
    ensures r.0 != [] ==> r.2 >= 0.0
    ensures r.2 <= power
    decreases |queue|
  {
    if power >= cost && |queue| > 0 then
      var rest := Drain(queue[1..], power - cost, cost);
      ([queue[0]] + rest.0, rest.1, rest.2)
    else
      ([], queue, power)
  }

  /** The credit that `k` completions at `cost` each take from the bucket. */
  function Spent(k: nat, cost: real): real
    decreases k
  {
    if k == 0 then 0.0 else Spent(k - 1, cost) + cost
  }

  lemma {:induction false} SpentIsProduct(k: nat, cost: real)
    ensures Spent(k, cost) == k as real * cost
    decreases k
  {
    if k > 0 {
      SpentIsProduct(k - 1, cost);
      assert (k - 1) as real * cost + cost == k as real * cost;
    }
  }

  /** Each completion spends exactly one `cost` of credit. */
  lemma {:induction false} DrainSpends(queue: seq<Tx>, power: real, cost: real)
    requires cost > 0.0
    ensures Drain(queue, power, cost).2 == power - Spent(|Drain(queue, power, cost).0|, cost)
    decreases |queue|
  {
    if power >= cost && |queue| > 0 {
      DrainSpends(queue[1..], power - cost, cost);
    }
  }

  /** One tick of processing; returns the new pathway and the transactions
      completed during the tick, in queue order. */
  function Process(p: Pathway): (r: (Pathway, seq<Tx>))
    ensures r.0 == p.(queue := r.0.queue, power := r.0.power)
    ensures r.1 + r.0.queue == p.queue
    ensures p.queue == [] ==> r.1 == [] && r.0.power == 0.0
    ensures p.queue != [] && p.time.Fin? && p.time.v <= 0.0 ==> r.0 == p && r.1 == []
    ensures p.queue != [] && p.time == Inf ==> r.1 == [] && r.0.power == p.power + 1.0
    ensures p.queue != [] && p.time.Fin? && p.time.v > 0.0 ==>
              r.0.queue == [] || r.0.power < p.time.v
    ensures p.power >= 0.0 ==> r.0.power >= 0.0
  {
    if |p.queue| == 0 then
      (p.(power := 0.0), [])
    else if p.time.Fin? && p.time.v <= 0.0 then
      (p, [])
    else
      var credit := p.power + 1.0;
      match p.time
      case Inf => (p.(power := credit), [])
      case Fin(t) =>
        var d := Drain(p.queue, credit, t);
        (p.(queue := d.1, power := d.2), d.0)
  }

  /** The token bucket: a busy tick adds one unit of credit and every
      completion spends one processing time. */
  lemma {:induction false} ProcessPower(p: Pathway)
    requires p.queue != [] && p.time.Fin? && p.time.v > 0.0
    ensures Process(p).0.power == p.power + 1.0 - Spent(|Process(p).1|, p.time.v)
  {
    DrainSpends(p.queue, p.power + 1.0, p.time.v);
  }

  /** A busy pathway whose processing time is at most one tick completes at
      least one transaction per tick; an infinite processing time never
      completes any. */
  lemma {:induction false} ProcessProgress(p: Pathway)
    requires p.queue != [] && p.power >= 0.0
    ensures p.time.Fin? && 0.0 < p.time.v <= 1.0 ==> |Process(p).1| >= 1
    ensures p.time == Inf ==> Process(p).1 == []
  {
    if p.time.Fin? && 0.0 < p.time.v <= 1.0 {
      var d := Drain(p.queue, p.power + 1.0, p.time.v);
      assert d.0 != [];
    }
  }

  /** Multiplying by or dividing through a positive cost preserves order. */
  lemma {:induction false} ScaleOrder(a: real, b: real, t: real)
    requires t > 0.0
    ensures a * t <= b <==> a <= b / t
    ensures b < a * t <==> b / t < a
  {
    var d := a - b / t;
    assert a * t - b == d * t;
    if d <= 0.0 {
      assert d * t <= 0.0;
    } else {
      assert d * t > 0.0;
    }
  }

  lemma {:induction false} DivMono(a: real, b: real, t: real)
    requires t > 0.0 && a <= b
    ensures a / t <= b / t
  {
    assert b / t - a / t == (b - a) / t;
  }

  lemma {:induction false} FloorUnique(x: real, k: int)
    requires k as real <= x < k as real + 1.0
    ensures x.Floor == k
  {}

  /** The number of completions in one busy tick, in closed form: as many
      whole transactions as the credit `power + 1` pays for, capped by the
      queue length. */
  lemma {:induction false} ProcessCount(p: Pathway)
    requires p.queue != [] && p.power >= 0.0 && p.time.Fin? && p.time.v > 0.0
    ensures |Process(p).1| == Min(|p.queue|, ((p.power + 1.0) / p.time.v).Floor)
  {
    var t := p.time.v;
    var r := Process(p);
    var k := |r.1|;
    assert r.0.power == p.power + 1.0 - k as real * t by {
      ProcessPower(p);
      SpentIsProduct(k, t);
    }
    assert |r.1| + |r.0.queue| == |p.queue|;
    CountFromCredit(p.power + 1.0, t, k, |p.queue|);
  }

  /** Taking `k` of `q` items at `t` each out of credit `c`, stopping only
      when the items run out or the credit falls below `t`, takes
      `min(q, floor(c / t))` items. */
  lemma {:induction false} CountFromCredit(c: real, t: real, k: nat, q: nat)
    requires t > 0.0 && k <= q && c - k as real * t >= 0.0
    requires k < q ==> c - k as real * t < t
    ensures k == Min(q, (c / t).Floor)
  {
    var x := c / t;
    ScaleOrder(k as real, c, t);
    if k < q {
      assert c < (k + 1) as real * t by {
        assert (k + 1) as real * t == k as real * t + t;
      }
      ScaleOrder((k + 1) as real, c, t);
      FloorUnique(x, k);
    }
  }

  /** `n` consecutive ticks of processing with no arrivals; returns the
      pathway and the total number of completions. */
  function ProcessTicks(p: Pathway, n: nat): (Pathway, nat)
    decreases n
  {
    if n == 0 then (p, 0)
    else
      var step := Process(p);
      var rest := ProcessTicks(step.0, n - 1);
      (rest.0, |step.1| + rest.1)
  }

  /** Credit below one processing time pays for no whole transaction. */
  lemma {:induction false} FractionFloor(a: real, t: real)
    requires 0.0 <= a < t
    ensures (a / t).Floor == 0
  {
    ScaleOrder(0.0, a, t);
    ScaleOrder(1.0, a, t);
    FloorUnique(a / t, 0);
  }

  lemma {:induction false} FloorShift(x: real, k: int)
    ensures (x - k as real).Floor == x.Floor - k
  {
    FloorUnique(x - k as real, x.Floor - k);
  }

  /** Spending `k` whole transactions of credit lowers the credit-to-cost
      ratio by exactly `k`. */
  lemma {:induction false} DivShift(x: real, k: int, t: real)
    requires t > 0.0
    ensures (x - k as real * t) / t == x / t - k as real
  {}

  /** Long-run throughput: a pathway with capacity `c` (time `1/c`) whose
      queue never runs dry completes exactly `floor((power + n) * c)`
      transactions over `n` ticks, i.e. the rate `c` up to the fractional
      credit carried over. */
  lemma {:induction false} ThroughputConverges(p: Pathway, n: nat)
    requires p.time.Fin? && p.time.v > 0.0
    requires 0.0 <= p.power < p.time.v
    requires |p.queue| > ((p.power + n as real) / p.time.v).Floor
    ensures ProcessTicks(p, n).1 == ((p.power + n as real) / p.time.v).Floor
    decreases n
  {
    var t := p.time.v;
    if n == 0 {
      assert (p.power + 0.0) / t == p.power / t;
      FractionFloor(p.power, t);
    } else {
      var step := Process(p);
      OneBusyTick(p, n);
      ThroughputConverges(step.0, n - 1);
      assert ProcessTicks(p, n).1 == |step.1| + ProcessTicks(step.0, n - 1).1;
    }
  }

  /** The first tick of `ThroughputConverges`: the completions fit in the
      queue and leave a fractional credit, and the remaining `n - 1` ticks
      pay for exactly the whole transactions not yet completed. */
  lemma {:induction false} OneBusyTick(p: Pathway, n: nat)
    requires n > 0
    requires p.time.Fin? && p.time.v > 0.0
    requires 0.0 <= p.power < p.time.v
    requires |p.queue| > ((p.power + n as real) / p.time.v).Floor
    ensures var step := Process(p);
      && step.0.time == p.time
      && 0.0 <= step.0.power < p.time.v
      && ((step.0.power + (n - 1) as real) / p.time.v).Floor
         == ((p.power + n as real) / p.time.v).Floor - |step.1|
      && |step.0.queue| > ((step.0.power + (n - 1) as real) / p.time.v).Floor
  {
    var t := p.time.v;
    var step := Process(p);
    var k := |step.1|;
    var y := (p.power + n as real) / t;
    var z := (step.0.power + (n - 1) as real) / t;
    assert step.0.queue != [] && 0.0 <= step.0.power < t && k <= y.Floor by {
      FirstTickFits(p, n);
    }
    assert z.Floor == y.Floor - k by {
      CreditShift(p, n);
    }
  }

  /** The completions of the first tick fit in a queue longer than the
      whole run can pay for, so the queue stays non-empty. */
  lemma {:induction false} FirstTickFits(p: Pathway, n: nat)
    requires n > 0
    requires p.time.Fin? && p.time.v > 0.0
    requires 0.0 <= p.power < p.time.v
    requires |p.queue| > ((p.power + n as real) / p.time.v).Floor
    ensures var step := Process(p);
      && step.0.queue != []
      && 0.0 <= step.0.power < p.time.v
      && |step.1| <= ((p.power + n as real) / p.time.v).Floor
  {
    var t := p.time.v;
    var step := Process(p);
    var k := |step.1|;
    ProcessCount(p);
    var x := (p.power + 1.0) / t;
    var y := (p.power + n as real) / t;
    DivMono(p.power + 1.0, p.power + n as real, t);
    assert x.Floor <= y.Floor;
    assert k == x.Floor;
    assert step.0.queue != [];
  }

  /** After one busy tick that completes `k` transactions, the credit left
      for the remaining ticks is `k` processing times smaller. */
  lemma {:induction false} CreditShift(p: Pathway, n: nat)
    requires n > 0
    requires p.queue != [] && p.time.Fin? && p.time.v > 0.0
    ensures var step := Process(p);
      ((step.0.power + (n - 1) as real) / p.time.v).Floor
      == ((p.power + n as real) / p.time.v).Floor - |step.1|
  {
    var t := p.time.v;
    var step := Process(p);
    var k := |step.1|;
    var kt := k as real * t;
    assert step.0.power == p.power + 1.0 - kt by {
      ProcessPower(p);
      SpentIsProduct(k, t);
    }
    assert (n - 1) as real == n as real - 1.0;
    assert step.0.power + (n - 1) as real == p.power + n as real - kt;
    DivShift(p.power + n as real, k, t);
    FloorShift((p.power + n as real) / t, k);
  }
}
